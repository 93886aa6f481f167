/**
 The state of one batch run of `startProcess` and the two steps that change it:
 the body of the per-identifier loop (query, count, maybe flush) and the final
 flush after the loop. Both historical builds share this logic; the maven build
 additionally sums the sizes of the written batches into `result`.
 */
module Batch {

  /** Buffers are flushed when their size is a positive multiple of this. */
  const FlushEvery: nat := 1000

  /** A recommended target for a source identifier, weighted by its
      occurrence count. */
  datatype Recommendation = Recommendation(source: string, target: string, weight: nat)

  /** What one querier call did to the shared recommendation list. A failure
      (an exception from the querier's constructor or from
      `computeRecommendations`) is not rolled back: whatever the querier had
      appended before throwing stays in the list. */
  datatype Outcome =
    | Success(appended: seq<Recommendation>)
    | Failure(partial: seq<Recommendation>)

  /** The recommendations a querier call left in the list. */
  function Contribution(o: Outcome): seq<Recommendation>
  {
    match o
    case Success(a) => a
    case Failure(p) => p
  }

  /** One call of `writeFile`: the batch handed over, and whether the RDF
      writer managed to persist it (a failure is logged and swallowed). */
  datatype WriteCall = WriteCall(batch: seq<Recommendation>, persisted: bool)

  /** The loop state: the pending buffer `recoms`, the `writeFile` calls made
      so far, the running `result` of the maven build and the count `current`
      of identifiers processed without an exception. */
  datatype BatchState = BatchState(
    buffer: seq<Recommendation>,
    calls: seq<WriteCall>,
    result: nat,
    current: nat)

  /** The state before the first identifier. */
  const Start := BatchState([], [], 0, 0)

  /** Everything handed to `writeFile`, in call order. */
  function Flattened(calls: seq<WriteCall>): seq<Recommendation>
  {
    if |calls| == 0 then [] else Flattened(calls[..|calls| - 1]) + calls[|calls| - 1].batch
  }

  /** The number of recommendations handed to `writeFile`, whether or not
      the writer persisted them. */
  function SumSizes(calls: seq<WriteCall>): nat
  {
    if |calls| == 0 then 0 else SumSizes(calls[..|calls| - 1]) + |calls[|calls| - 1].batch|
  }

  /** Everything the querier calls appended to the shared list, in order. */
  function Appended(os: seq<Outcome>): seq<Recommendation>
  {
    if |os| == 0 then [] else Appended(os[..|os| - 1]) + Contribution(os[|os| - 1])
  }

  /** The number of querier calls that returned normally. */
  function Successes(os: seq<Outcome>): nat
  {
    if |os| == 0 then 0 else Successes(os[..|os| - 1]) + (if os[|os| - 1].Success? then 1 else 0)
  }

  /** The flush test of the loop: a positive exact multiple of the threshold. */
  predicate FlushDue(size: nat)
  {
    size > 0 && size % FlushEvery == 0
  }

  /** `writeFile(recoms)`, then (maven build) `result += recoms.size()`, then
      `recoms.clear()`. `writerOk(k)` says whether the k-th write persisted. */
  function WriteAndClear(s: BatchState, writerOk: nat -> bool): BatchState
  {
    BatchState(
      [],
      s.calls + [WriteCall(s.buffer, writerOk(|s.calls|))],
      s.result + |s.buffer|,
      s.current)
  }

  /** One pass of the loop body for one identifier whose querier call had
      outcome `o`: on success count it and flush if due; on an exception keep
      whatever was appended and go on without counting or flushing. */
  function Visit(s: BatchState, o: Outcome, writerOk: nat -> bool): BatchState
  {
    match o
    case Failure(p) => s.(buffer := s.buffer + p)
    case Success(a) =>
      var s' := s.(buffer := s.buffer + a, current := s.current + 1);
      if FlushDue(|s'.buffer|) then WriteAndClear(s', writerOk) else s'
  }

  /** The final flush after the loop: write a non-empty remainder. */
  function Finish(s: BatchState, writerOk: nat -> bool): BatchState
  {
    if |s.buffer| > 0 then WriteAndClear(s, writerOk) else s
  }

  /** The bookkeeping invariant of a run after the outcomes `os`: what was
      written followed by the buffer is exactly what was appended, in order;
      `result` counts every written recommendation; `current` counts the
      successes; every write was of a non-empty batch and its persistence is
      the writer's answer for that call. */
  ghost predicate Accounts(s: BatchState, os: seq<Outcome>, writerOk: nat -> bool)
  {
    && Flattened(s.calls) + s.buffer == Appended(os)
    && s.result == SumSizes(s.calls)
    && s.current == Successes(os)
    && (forall i :: 0 <= i < |s.calls| ==> |s.calls[i].batch| > 0)
    && (forall i :: 0 <= i < |s.calls| ==> s.calls[i].persisted == writerOk(i))
  }

  /** Every write made inside the loop was of a positive multiple of the threshold. */
  ghost predicate LoopWrites(calls: seq<WriteCall>)
  {
    forall i :: 0 <= i < |calls| ==> FlushDue(|calls[i].batch|)
  }

  /** The invariant holds before the first identifier. */
  lemma StartAccounts(writerOk: nat -> bool)
    ensures Accounts(Start, [], writerOk) && LoopWrites(Start.calls)
  {
  }

  /** A flush hands the whole buffer to the writer in one call appended after
      the earlier calls, adds its size to `result`, empties the buffer, and
      keeps the invariant. */
  lemma WriteAndClearAccounts(s: BatchState, os: seq<Outcome>, writerOk: nat -> bool)
    requires Accounts(s, os, writerOk)
    requires |s.buffer| > 0
    ensures WriteAndClear(s, writerOk).calls == s.calls + [WriteCall(s.buffer, writerOk(|s.calls|))]
    ensures WriteAndClear(s, writerOk).result == s.result + |s.buffer|
    ensures WriteAndClear(s, writerOk).buffer == []
    ensures WriteAndClear(s, writerOk).current == s.current
    ensures Accounts(WriteAndClear(s, writerOk), os, writerOk)
  {
  }

  /** Appending a querier call's output to the buffer, and counting the call
      when it succeeded, keeps the invariant. */
  lemma GrowAccounts(s: BatchState, os: seq<Outcome>, o: Outcome, writerOk: nat -> bool)
    requires Accounts(s, os, writerOk)
    ensures Accounts(s.(buffer := s.buffer + Contribution(o),
                        current := s.current + (if o.Success? then 1 else 0)),
                     os + [o], writerOk)
  {
    var os' := os + [o];
    assert os'[..|os'| - 1] == os;
    assert Appended(os') == Appended(os) + Contribution(o);
    assert Flattened(s.calls) + (s.buffer + Contribution(o)) == Appended(os) + Contribution(o);
  }

  /** A failing querier call leaves its partial output in the buffer, writes
      nothing, counts nothing, and keeps the invariant. */
  lemma VisitFailureAccounts(s: BatchState, os: seq<Outcome>, p: seq<Recommendation>, writerOk: nat -> bool)
    requires Accounts(s, os, writerOk) && LoopWrites(s.calls)
    ensures Visit(s, Failure(p), writerOk) == s.(buffer := s.buffer + p)
    ensures Accounts(Visit(s, Failure(p), writerOk), os + [Failure(p)], writerOk)
    ensures LoopWrites(Visit(s, Failure(p), writerOk).calls)
  {
    GrowAccounts(s, os, Failure(p), writerOk);
  }

  /** A successful querier call keeps the invariant, flushing or not. */
  lemma VisitSuccessAccounts(s: BatchState, os: seq<Outcome>, a: seq<Recommendation>, writerOk: nat -> bool)
    requires Accounts(s, os, writerOk) && LoopWrites(s.calls)
    ensures Accounts(Visit(s, Success(a), writerOk), os + [Success(a)], writerOk)
    ensures LoopWrites(Visit(s, Success(a), writerOk).calls)
  {
    GrowAccounts(s, os, Success(a), writerOk);
    var s' := s.(buffer := s.buffer + a, current := s.current + 1);
    if FlushDue(|s'.buffer|) {
      WriteAndClearAccounts(s', os + [Success(a)], writerOk);
    }
  }

  /** The loop body keeps the invariant, whether the querier succeeds or throws. */
  lemma VisitAccounts(s: BatchState, os: seq<Outcome>, o: Outcome, writerOk: nat -> bool)
    requires Accounts(s, os, writerOk) && LoopWrites(s.calls)
    ensures Accounts(Visit(s, o, writerOk), os + [o], writerOk)
    ensures LoopWrites(Visit(s, o, writerOk).calls)
  {
    match o
    case Failure(p) => VisitFailureAccounts(s, os, p, writerOk);
    case Success(a) => VisitSuccessAccounts(s, os, a, writerOk);
  }

  /** The final flush writes a non-empty remainder in exactly one call after
      the unchanged earlier calls and adds its size to `result`; an empty
      buffer writes nothing. It keeps the invariant, leaves the buffer empty,
      and all writes but the last are still positive multiples of the
      threshold. */
  lemma FinishAccounts(s: BatchState, os: seq<Outcome>, writerOk: nat -> bool)
    requires Accounts(s, os, writerOk) && LoopWrites(s.calls)
    ensures |s.buffer| > 0 ==>
              && Finish(s, writerOk).calls == s.calls + [WriteCall(s.buffer, writerOk(|s.calls|))]
              && Finish(s, writerOk).result == s.result + |s.buffer|
    ensures |s.buffer| == 0 ==> Finish(s, writerOk) == s
    ensures Accounts(Finish(s, writerOk), os, writerOk)
    ensures Finish(s, writerOk).buffer == []
    ensures var calls := Finish(s, writerOk).calls;
            forall i :: 0 <= i < |calls| - 1 ==> FlushDue(|calls[i].batch|)
  {
    if |s.buffer| > 0 {
      WriteAndClearAccounts(s, os, writerOk);
    }
  }

  /** The loop over all outcomes, from state `s`. */
  function Loop(s: BatchState, os: seq<Outcome>, writerOk: nat -> bool): BatchState
  {
    if |os| == 0 then s else Visit(Loop(s, os[..|os| - 1], writerOk), os[|os| - 1], writerOk)
  }

  /** A whole run after the identifier set has been read: the loop from the
      start state, then the final flush. */
  function Replay(os: seq<Outcome>, writerOk: nat -> bool): BatchState
  {
    Finish(Loop(Start, os, writerOk), writerOk)
  }

  /** The loop keeps the invariant over any sequence of outcomes. */
  lemma {:induction false} LoopAccounts(os: seq<Outcome>, writerOk: nat -> bool)
    ensures Accounts(Loop(Start, os, writerOk), os, writerOk)
    ensures LoopWrites(Loop(Start, os, writerOk).calls)
  {
    if |os| == 0 {
      StartAccounts(writerOk);
    } else {
      var init := os[..|os| - 1];
      LoopAccounts(init, writerOk);
      VisitAccounts(Loop(Start, init, writerOk), init, os[|os| - 1], writerOk);
      assert init + [os[|os| - 1]] == os;
    }
  }

  /** A whole run writes everything appended exactly once and in order, in
      non-empty batches of which all but the last are positive multiples of
      the threshold, and ends with an empty buffer. */
  lemma ReplayAccounts(os: seq<Outcome>, writerOk: nat -> bool)
    ensures Accounts(Replay(os, writerOk), os, writerOk)
    ensures Replay(os, writerOk).buffer == []
    ensures var calls := Replay(os, writerOk).calls;
            forall i :: 0 <= i < |calls| - 1 ==> FlushDue(|calls[i].batch|)
  {
    LoopAccounts(os, writerOk);
    FinishAccounts(Loop(Start, os, writerOk), os, writerOk);
  }

  /** Exactly 1000 recommendations from one identifier: one write of exactly
      those 1000, and nothing left for the final flush. */
  lemma ExactThreshold(a: seq<Recommendation>, writerOk: nat -> bool)
    requires |a| == FlushEvery
    ensures Replay([Success(a)], writerOk) == BatchState([], [WriteCall(a, writerOk(0))], 1000, 1)
  {
    assert [Success(a)][..0] == [];
    assert Loop(Start, [], writerOk) == Start;
    assert Start.buffer + a == a;
    assert FlushDue(|a|);
    assert Loop(Start, [Success(a)], writerOk) == BatchState([], [WriteCall(a, writerOk(0))], 1000, 1);
  }

  /** 1000 and then 500 recommendations: a write of 1000 in the loop and a
      final write of 500. */
  lemma ThresholdThenRemainder(a: seq<Recommendation>, b: seq<Recommendation>, writerOk: nat -> bool)
    requires |a| == FlushEvery && |b| == 500
    ensures Replay([Success(a), Success(b)], writerOk).calls
              == [WriteCall(a, writerOk(0)), WriteCall(b, writerOk(1))]
  {
    var os := [Success(a), Success(b)];
    assert os[..1] == [Success(a)];
    ExactThreshold(a, writerOk);
    var s1 := Loop(Start, [Success(a)], writerOk);
    assert s1 == BatchState([], [WriteCall(a, writerOk(0))], 1000, 1);
    assert s1.buffer + b == b;
    assert !FlushDue(|b|);
    assert Loop(Start, os, writerOk) == BatchState(b, [WriteCall(a, writerOk(0))], 1000, 2);
  }

  /** 1500 recommendations from one identifier never meet an exact multiple:
      nothing is written in the loop, and the final flush writes all 1500. */
  lemma OverThresholdAtOnce(a: seq<Recommendation>, writerOk: nat -> bool)
    requires |a| == 1500
    ensures Replay([Success(a)], writerOk).calls == [WriteCall(a, writerOk(0))]
  {
    assert [Success(a)][..0] == [];
    assert Start.buffer + a == a;
    assert !FlushDue(|a|);
    assert Loop(Start, [Success(a)], writerOk) == BatchState(a, [], 0, 1);
  }

  /** Two identifiers, the first yielding one recommendation and the second
      throwing before appending anything: one write of that recommendation,
      and one identifier processed. */
  lemma OneSuccessOneFailure(r: Recommendation, writerOk: nat -> bool)
    ensures Replay([Success([r]), Failure([])], writerOk)
              == BatchState([], [WriteCall([r], writerOk(0))], 1, 1)
  {
    var os := [Success([r]), Failure([])];
    assert os[..1] == [Success([r])];
    assert [Success([r])][..0] == [];
    assert Start.buffer + [r] == [r];
    assert !FlushDue(1);
    assert Visit(Start, Success([r]), writerOk) == BatchState([r], [], 0, 1);
    assert Loop(Start, [], writerOk) == Start;
    var s1 := Loop(Start, [Success([r])], writerOk);
    assert s1 == BatchState([r], [], 0, 1);
    assert Loop(Start, os, writerOk) == s1.(buffer := [r] + []);
    assert [r] + [] == [r];
  }

  /** The flush rule of one step: a write happens exactly when the querier
      succeeded and the buffer then holds a positive multiple of the
      threshold; the batch written is that whole buffer, `result` grows by its
      size and the buffer ends empty. Otherwise nothing is written and the
      buffer keeps the appended recommendations. */
  lemma VisitFlushRule(s: BatchState, o: Outcome, writerOk: nat -> bool)
    ensures var t := Visit(s, o, writerOk);
            var grown := s.buffer + Contribution(o);
            if o.Success? && FlushDue(|grown|) then
              && t.calls == s.calls + [WriteCall(grown, writerOk(|s.calls|))]
              && t.result == s.result + |grown|
              && t.buffer == []
            else
              && t.calls == s.calls
              && t.result == s.result
              && t.buffer == grown
  {
  }

  /** `writeFile` swallows the writer's exceptions: whether a write persisted
      changes nothing in the run but the recorded flag. The buffer is cleared,
      `result` grows and the loop goes on in either case. */
  lemma VisitIgnoresWriter(s: BatchState, o: Outcome, ok1: nat -> bool, ok2: nat -> bool)
    ensures var t1 := Visit(s, o, ok1);
            var t2 := Visit(s, o, ok2);
            && t1.buffer == t2.buffer
            && t1.result == t2.result
            && t1.current == t2.current
            && |t1.calls| == |t2.calls|
            && forall i :: 0 <= i < |t1.calls| ==> t1.calls[i].batch == t2.calls[i].batch
  {
  }

  /** A failing querier call changes nothing but the buffer: the identifier is
      not counted and no flush test runs, even when the buffer now holds a
      multiple of the threshold. */
  lemma VisitFailure(s: BatchState, p: seq<Recommendation>, writerOk: nat -> bool)
    ensures var t := Visit(s, Failure(p), writerOk);
            t.calls == s.calls && t.result == s.result && t.current == s.current && t.buffer == s.buffer + p
  {
  }

  /** Only exact multiples flush: a buffer of 999 that grows by 4 is not
      written, and the buffer keeps all 1003 recommendations. */
  lemma SkippedMultiple(s: BatchState, a: seq<Recommendation>, writerOk: nat -> bool)
    requires |s.buffer| == 999 && |a| == 4
    ensures Visit(s, Success(a), writerOk).calls == s.calls
    ensures |Visit(s, Success(a), writerOk).buffer| == 1003
  {
  }

  /** `current` reaches the number of identifiers exactly when no querier call
      failed. */
  lemma {:induction false} SuccessesAll(os: seq<Outcome>)
    ensures Successes(os) <= |os|
    ensures Successes(os) == |os| <==> forall i :: 0 <= i < |os| ==> os[i].Success?
  {
    if |os| > 0 {
      var init := os[..|os| - 1];
      SuccessesAll(init);
      assert forall i :: 0 <= i < |init| ==> init[i] == os[i];
    }
  }

  /** With exactly one failing querier call, all other identifiers are
      processed. */
  lemma {:induction false} SuccessesOneFailure(os: seq<Outcome>, k: nat)
    requires k < |os| && os[k].Failure?
    requires forall i :: 0 <= i < |os| && i != k ==> os[i].Success?
    ensures Successes(os) == |os| - 1
  {
    var init := os[..|os| - 1];
    if k == |os| - 1 {
      SuccessesAll(init);
    } else {
      SuccessesOneFailure(init, k);
    }
  }

  /** The number handed to the writer is the length of the written sequence. */
  lemma {:induction false} SumSizesFlattened(calls: seq<WriteCall>)
    ensures SumSizes(calls) == |Flattened(calls)|
  {
    if |calls| > 0 {
      SumSizesFlattened(calls[..|calls| - 1]);
    }
  }
}
