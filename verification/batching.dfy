/**
  The batch-flush policy shared by the accessor's bulk save, bulk merge and
  bulk remove-by-key loops (DataAccessObjectImpl): each element is handled
  with its own flush flag off, a running counter is incremented after it,
  and a flush plus clear follows whenever the caller asked for flushing and
  the counter is a multiple of the batch size. There is no trailing flush.
 */
module Batching {
  import opened Wrappers
  import opened Persistence

  /**
    The Java loop, element by element. `done` is the loop counter before
    the first element of `xs`. A zero batch size makes `count % batch`
    throw, which Java only evaluates when `flush` is true; the element that
    was just handled keeps its events. An element that throws ends the loop.
    Dafny's `%` and Java's `%` agree on whether the remainder is zero, also
    for a negative batch size.
   */
  function BatchLoop<X, Y>(step: X -> Outcome<Y>, xs: seq<X>, flush: bool, batch: int, done: nat): (o: Outcome<()>)
    ensures o.result.Ok? <==>
              (forall i :: 0 <= i < |xs| ==> step(xs[i]).result.Ok?) && (|xs| == 0 || !flush || batch != 0)
    decreases |xs|
  {
    if |xs| == 0 then Outcome(Ok(()), [])
    else
      var first := step(xs[0]);
      if first.result.Err? then Outcome(Err(first.result.error), first.trace)
      else if flush && batch == 0 then Outcome(Err(Arithmetic), first.trace)
      else
        var rest := BatchLoop(step, xs[1..], flush, batch, done + 1);
        assert forall i :: 1 <= i < |xs| ==> xs[i] == xs[1..][i - 1];
        Outcome(rest.result, first.trace + FlushTrace(flush && (done + 1) % batch == 0) + rest.trace)
  }

  /** The trace each element produces on its own, in iteration order. */
  function StepTraces<X, Y>(step: X -> Outcome<Y>, xs: seq<X>): (ts: seq<seq<Event>>)
    ensures |ts| == |xs|
    ensures forall i :: 0 <= i < |xs| ==> ts[i] == step(xs[i]).trace
  {
    seq(|xs|, i requires 0 <= i < |xs| => step(xs[i]).trace)
  }

  /**
    Reference schedule stated by absolute position: the `i`-th element's
    trace (0-based), followed by a flush and a clear exactly when the
    element is the `k * batch`-th one and flushing was requested.
   */
  function Segments(traces: seq<seq<Event>>, flush: bool, batch: int, offset: nat): (s: seq<seq<Event>>)
    requires !flush || batch != 0
    ensures |s| == |traces|
    ensures forall i :: 0 <= i < |traces| ==>
              s[i] == traces[i] + FlushTrace(flush && (offset + i + 1) % batch == 0)
  {
    seq(|traces|, i requires 0 <= i < |traces| => traces[i] + FlushTrace(flush && (offset + i + 1) % batch == 0))
  }

  /** The whole reference trace of a bulk call whose elements all succeed. */
  function Scheduled(traces: seq<seq<Event>>, flush: bool, batch: int): seq<Event>
    requires !flush || batch != 0
  {
    Flatten(Segments(traces, flush, batch, 0))
  }

  lemma SegmentsTail(traces: seq<seq<Event>>, flush: bool, batch: int, offset: nat)
    requires !flush || batch != 0
    requires |traces| > 0
    ensures Segments(traces, flush, batch, offset)[1..] == Segments(traces[1..], flush, batch, offset + 1)
  {
    var a := Segments(traces, flush, batch, offset)[1..];
    var b := Segments(traces[1..], flush, batch, offset + 1);
    assert |a| == |b|;
    forall i | 0 <= i < |a|
      ensures a[i] == b[i]
    {
      assert offset + (i + 1) + 1 == (offset + 1) + i + 1;
    }
  }

  /** When every element succeeds, the Java loop emits exactly the reference schedule. */
  lemma {:induction false} BatchLoopFollowsSegments<X, Y>(step: X -> Outcome<Y>, xs: seq<X>, flush: bool, batch: int, done: nat)
    requires forall i :: 0 <= i < |xs| ==> step(xs[i]).result.Ok?
    requires !flush || batch != 0
    ensures BatchLoop(step, xs, flush, batch, done)
         == Outcome(Ok(()), Flatten(Segments(StepTraces(step, xs), flush, batch, done)))
    decreases |xs|
  {
    if |xs| > 0 {
      var ts := StepTraces(step, xs);
      assert forall i :: 0 <= i < |xs[1..]| ==> xs[1..][i] == xs[i + 1];
      BatchLoopFollowsSegments(step, xs[1..], flush, batch, done + 1);
      assert StepTraces(step, xs[1..]) == ts[1..];
      SegmentsTail(ts, flush, batch, done);
    }
  }

  lemma BatchLoopFollowsSchedule<X, Y>(step: X -> Outcome<Y>, xs: seq<X>, flush: bool, batch: int)
    requires forall i :: 0 <= i < |xs| ==> step(xs[i]).result.Ok?
    requires !flush || batch != 0
    ensures BatchLoop(step, xs, flush, batch, 0) == Outcome(Ok(()), Scheduled(StepTraces(step, xs), flush, batch))
  {
    BatchLoopFollowsSegments(step, xs, flush, batch, 0);
  }

  /**
    When an element fails, the loop stops there: the trace is the schedule
    of the elements before it followed by the failing element's own events.
   */
  lemma {:induction false} BatchLoopStopsAtFailure<X, Y>(step: X -> Outcome<Y>, xs: seq<X>, flush: bool, batch: int, done: nat, j: nat)
    requires j < |xs|
    requires forall i :: 0 <= i < j ==> step(xs[i]).result.Ok?
    requires step(xs[j]).result.Err?
    requires !flush || batch != 0
    ensures BatchLoop(step, xs, flush, batch, done)
         == Outcome(Err(step(xs[j]).result.error),
                    Flatten(Segments(StepTraces(step, xs[..j]), flush, batch, done)) + step(xs[j]).trace)
    decreases j
  {
    if j > 0 {
      var ts := StepTraces(step, xs[..j]);
      assert forall i :: 0 <= i < |xs[1..]| ==> xs[1..][i] == xs[i + 1];
      BatchLoopStopsAtFailure(step, xs[1..], flush, batch, done + 1, j - 1);
      assert xs[1..][..j - 1] == xs[..j][1..];
      assert StepTraces(step, xs[1..][..j - 1]) == ts[1..];
      SegmentsTail(ts, flush, batch, done);
    }
  }

  /** The counter steps over a multiple of `b` exactly when it reaches one. */
  lemma DivStep(m: nat, b: int)
    requires b > 0
    ensures (m + 1) / b == m / b + (if (m + 1) % b == 0 then 1 else 0)
  {
    var q, r := m / b, m % b;
    assert m == b * q + r && 0 <= r < b;
    if r == b - 1 {
      assert m + 1 == b * (q + 1) + 0;
      DivModUnique(m + 1, b, q + 1, 0);
    } else {
      assert m + 1 == b * q + (r + 1);
      DivModUnique(m + 1, b, q, r + 1);
    }
  }

  /** Euclidean division has a single quotient and remainder. */
  lemma DivModUnique(n: int, b: int, q: int, r: int)
    requires b > 0
    requires n == b * q + r && 0 <= r < b
    ensures n / b == q && n % b == r
  {
    var q' := n / b;
    assert n == b * q' + n % b;
    if q' < q {
      assert b * (q' + 1) == b * q' + b;
      MulMonotone(b, q' + 1, q);
    } else if q < q' {
      assert b * (q + 1) == b * q + b;
      MulMonotone(b, q + 1, q');
    }
  }

  lemma MulMonotone(b: int, x: int, y: int)
    requires b >= 0 && x <= y
    ensures b * x <= b * y
  {
    assert b * y - b * x == b * (y - x);
  }

  lemma {:induction false} SegmentsFlushCount(traces: seq<seq<Event>>, batch: int, offset: nat, ev: Event)
    requires batch > 0
    requires ev == Flush || ev == Clear
    requires forall i :: 0 <= i < |traces| ==> Count(traces[i], ev) == 0
    ensures Count(Flatten(Segments(traces, true, batch, offset)), ev)
         == (offset + |traces|) / batch - offset / batch
    decreases |traces|
  {
    if |traces| > 0 {
      var s := Segments(traces, true, batch, offset);
      var hit := (offset + 1) % batch == 0;
      var head := Count(s[0], ev);
      var tail := Count(Flatten(s[1..]), ev);
      assert s[0] == traces[0] + FlushTrace(hit);
      CountAppend(traces[0], FlushTrace(hit), ev);
      CountFlushTrace(hit, ev);
      SegmentsTail(traces, true, batch, offset);
      assert forall i :: 0 <= i < |traces[1..]| ==> traces[1..][i] == traces[i + 1];
      SegmentsFlushCount(traces[1..], batch, offset + 1, ev);
      CountAppend(s[0], Flatten(s[1..]), ev);
      CountStep(head, tail, offset, |traces|, batch);
    }
  }

  lemma CountStep(head: int, tail: int, offset: nat, n: nat, b: int)
    requires b > 0 && n >= 1
    requires head == (if (offset + 1) % b == 0 then 1 else 0)
    requires tail == (offset + 1 + (n - 1)) / b - (offset + 1) / b
    ensures head + tail == (offset + n) / b - offset / b
  {
    DivStep(offset, b);
  }

  /**
    With flushing requested and a positive batch size, a bulk call over N
    elements that emit no flush of their own emits floor(N / batch) flushes
    and as many clears.
   */
  lemma ScheduledFlushCount(traces: seq<seq<Event>>, batch: int, ev: Event)
    requires batch > 0
    requires ev == Flush || ev == Clear
    requires forall i :: 0 <= i < |traces| ==> Count(traces[i], ev) == 0
    ensures Count(Scheduled(traces, true, batch), ev) == |traces| / batch
  {
    SegmentsFlushCount(traces, batch, 0, ev);
  }

  /** Without flushing, the bulk trace is just the element traces in order. */
  lemma {:induction false} SegmentsWithoutFlush(traces: seq<seq<Event>>, batch: int, offset: nat)
    ensures Flatten(Segments(traces, false, batch, offset)) == Flatten(traces)
    decreases |traces|
  {
    if |traces| > 0 {
      SegmentsTail(traces, false, batch, offset);
      SegmentsWithoutFlush(traces[1..], batch, offset + 1);
    }
  }

  lemma ScheduledWithoutFlush(traces: seq<seq<Event>>, batch: int)
    ensures Scheduled(traces, false, batch) == Flatten(traces)
  {
    SegmentsWithoutFlush(traces, batch, 0);
  }

  /**
    The schedule ends with the last element's own events, followed by a
    flush only when the element count is a multiple of the batch size: a
    final partial batch is never flushed.
   */
  lemma ScheduledLast(traces: seq<seq<Event>>, flush: bool, batch: int)
    requires !flush || batch != 0
    requires |traces| > 0
    ensures Scheduled(traces, flush, batch)
         == Scheduled(traces[..|traces| - 1], flush, batch)
            + traces[|traces| - 1] + FlushTrace(flush && |traces| % batch == 0)
  {
    var n := |traces|;
    var s := Segments(traces, flush, batch, 0);
    var init := Segments(traces[..n - 1], flush, batch, 0);
    assert s == init + [s[n - 1]];
    FlattenAppend(init, [s[n - 1]]);
    assert Flatten([s[n - 1]]) == s[n - 1];
  }

  /** Elements that flush nothing of their own. */
  ghost predicate FlushFree(traces: seq<seq<Event>>) {
    forall i :: 0 <= i < |traces| ==> Count(traces[i], Flush) == 0 && Count(traces[i], Clear) == 0
  }

  /**
    The batch-flush policy of a bulk call whose elements all succeed: the
    elements in order, each followed by a flush exactly when it completes a
    batch; floor(N / batch) flushes and clears when flushing is requested,
    none otherwise.
   */
  lemma BulkSchedule<X, Y>(step: X -> Outcome<Y>, xs: seq<X>, flush: bool, batch: int)
    requires forall i :: 0 <= i < |xs| ==> step(xs[i]).result.Ok?
    requires FlushFree(StepTraces(step, xs))
    requires !flush || batch != 0
    ensures BatchLoop(step, xs, flush, batch, 0) == Outcome(Ok(()), Scheduled(StepTraces(step, xs), flush, batch))
    ensures flush && batch > 0 ==>
              Count(BatchLoop(step, xs, flush, batch, 0).trace, Flush) == |xs| / batch
              && Count(BatchLoop(step, xs, flush, batch, 0).trace, Clear) == |xs| / batch
    ensures !flush ==>
              BatchLoop(step, xs, flush, batch, 0).trace == Flatten(StepTraces(step, xs))
              && Count(BatchLoop(step, xs, flush, batch, 0).trace, Flush) == 0
              && Count(BatchLoop(step, xs, flush, batch, 0).trace, Clear) == 0
  {
    var ts := StepTraces(step, xs);
    BatchLoopFollowsSchedule(step, xs, flush, batch);
    if flush && batch > 0 {
      ScheduledFlushCount(ts, batch, Flush);
      ScheduledFlushCount(ts, batch, Clear);
    }
    if !flush {
      ScheduledWithoutFlush(ts, batch);
      CountFlattenZero(ts, Flush);
      CountFlattenZero(ts, Clear);
    }
  }

  /** Events that neither the elements nor the flushes produce never appear. */
  lemma {:induction false} BatchLoopHookFree<X, Y>(step: X -> Outcome<Y>, xs: seq<X>, flush: bool, batch: int, done: nat)
    requires forall i :: 0 <= i < |xs| ==> HookFree(step(xs[i]).trace)
    ensures HookFree(BatchLoop(step, xs, flush, batch, done).trace)
    decreases |xs|
  {
    if |xs| > 0 {
      assert forall i :: 0 <= i < |xs[1..]| ==> xs[1..][i] == xs[i + 1];
      BatchLoopHookFree(step, xs[1..], flush, batch, done + 1);
    }
  }
}
