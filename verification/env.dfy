/** The environment (src/env.rs): its completion queues, and the loop each
    poller thread runs to drain one queue. Waiting on the native queue is
    replaced by a finite sequence of the events it would return. */
module Env {
  import opened Wrappers
  import opened Grpc
  import opened BatchContext
  import opened Promise
  import Call

  /** An event returned by the native queue's `next`: the queue is shut
      down, the wait timed out, or an operation completed with its tag, its
      integer success flag and the batch results it wrote. */
  datatype CqEvent = CqShutdown | CqTimeout | CqOpComplete(tag: Tag, success: int, ctx: Ctx)

  /** What a poller thread did with a sequence of events: the promises it
      resolved in order, the promises still pending, how many events it
      took off the queue, and whether a resolution panicked. */
  datatype Drain = Drain(resolved: seq<(Tag, Resolution)>, pending: Table, consumed: nat, panicked: bool)

  /** `poll_queue`. The loop leaves the queue only at a shutdown event or
      when a resolution panics; no earlier event it consumed is a shutdown.
      A completion whose tag is not in the table is skipped: a context whose
      promise was already taken. The source cannot tell an unknown tag from
      such a context, since it reads the tag as a pointer. */
  function PollQueue(events: seq<CqEvent>, pending: Table): (d: Drain)
    ensures d.consumed <= |events|
    ensures d.consumed < |events| ==> 0 < d.consumed && (d.panicked || events[d.consumed - 1].CqShutdown?)
    ensures d.panicked ==> 0 < d.consumed && events[d.consumed - 1].CqOpComplete?
    ensures forall i :: 0 <= i < d.consumed - 1 ==> !events[i].CqShutdown?
    decreases |events|
  {
    if |events| == 0 then Drain([], pending, 0, false)
    else
      match events[0]
      case CqShutdown => Drain([], pending, 1, false)
      case CqTimeout =>
        var d := PollQueue(events[1..], pending);
        d.(consumed := d.consumed + 1)
      case CqOpComplete(tag, success, ctx) =>
        if tag !in pending then
          var d := PollQueue(events[1..], pending);
          d.(consumed := d.consumed + 1)
        else
          var r := Resolve(pending[tag], ctx, success != 0);
          if r.Panicked? then Drain([(tag, r)], pending - {tag}, 1, true)
          else
            var d := PollQueue(events[1..], pending - {tag});
            d.(resolved := [(tag, r)] + d.resolved, consumed := d.consumed + 1)
  }

  /** The first event on a queue that completes a pending promise resolves
      it with `success = (flag != 0)` and takes it out of the table. */
  lemma OpCompleteResolvesPromise(tag: Tag, flag: int, ctx: Ctx, rest: seq<CqEvent>, pending: Table)
    requires tag in pending
    ensures var d := PollQueue([CqOpComplete(tag, flag, ctx)] + rest, pending);
            && |d.resolved| > 0
            && d.resolved[0] == (tag, Resolve(pending[tag], ctx, flag != 0))
            && tag !in d.pending
  {
    var es := [CqOpComplete(tag, flag, ctx)] + rest;
    assert es[0] == CqOpComplete(tag, flag, ctx);
    assert es[1..] == rest;
    if !Resolve(pending[tag], ctx, flag != 0).Panicked? {
      TableShrinks(rest, pending - {tag});
    }
  }

  /** A batch the native layer accepted is pending under its tag, and the
      completion carrying that tag resolves it as a promise of the
      submitted kind and takes it out of the table. */
  lemma SubmittedBatchIsResolved(pending: Table, tag: Tag, bt: BatchType, flag: int, ctx: Ctx, rest: seq<CqEvent>)
    requires tag !in pending
    ensures var (table, res) := Call.CheckRun(pending, tag, bt, CallOk);
            var d := PollQueue([CqOpComplete(tag, flag, ctx)] + rest, table);
            && res == Success(tag)
            && |d.resolved| > 0
            && d.resolved[0] == (tag, Resolve(Batch(bt), ctx, flag != 0))
            && tag !in d.pending
  {
    var (table, _) := Call.CheckRun(pending, tag, bt, CallOk);
    OpCompleteResolvesPromise(tag, flag, ctx, rest, table);
  }

  /** The table only loses entries, and exactly the resolved ones. */
  lemma {:induction false} TableShrinks(events: seq<CqEvent>, pending: Table)
    ensures PollQueue(events, pending).pending.Keys <= pending.Keys
    ensures forall i :: 0 <= i < |PollQueue(events, pending).resolved| ==>
              PollQueue(events, pending).resolved[i].0 in pending.Keys - PollQueue(events, pending).pending.Keys
    decreases |events|
  {
    if |events| > 0 {
      match events[0] {
        case CqShutdown =>
        case CqTimeout =>
          TableShrinks(events[1..], pending);
        case CqOpComplete(tag, success, ctx) =>
          if tag !in pending {
            TableShrinks(events[1..], pending);
          } else if !Resolve(pending[tag], ctx, success != 0).Panicked? {
            TableShrinks(events[1..], pending - {tag});
          }
      }
    }
  }

  predicate DistinctTags(rs: seq<(Tag, Resolution)>)
  {
    forall i, j :: 0 <= i < j < |rs| ==> rs[i].0 != rs[j].0
  }

  /** Each promise is resolved at most once: the resolved tags are distinct
      pending tags, and none of them is pending afterwards. */
  lemma {:induction false} ResolvedAtMostOnce(events: seq<CqEvent>, pending: Table)
    ensures DistinctTags(PollQueue(events, pending).resolved)
    ensures forall i :: 0 <= i < |PollQueue(events, pending).resolved| ==>
              PollQueue(events, pending).resolved[i].0 in pending &&
              PollQueue(events, pending).resolved[i].0 !in PollQueue(events, pending).pending
    decreases |events|
  {
    TableShrinks(events, pending);
    if |events| > 0 {
      match events[0] {
        case CqShutdown =>
        case CqTimeout =>
          ResolvedAtMostOnce(events[1..], pending);
        case CqOpComplete(tag, success, ctx) =>
          if tag !in pending {
            ResolvedAtMostOnce(events[1..], pending);
          } else if !Resolve(pending[tag], ctx, success != 0).Panicked? {
            ResolvedAtMostOnce(events[1..], pending - {tag});
            TableShrinks(events[1..], pending - {tag});
          }
      }
    }
  }

  /** The table the loop continues with after taking `e` off the queue
      (when it continues at all). */
  function AfterEvent(e: CqEvent, pending: Table): Table
  {
    if e.CqOpComplete? && e.tag in pending then pending - {e.tag} else pending
  }

  /** Two drains that agree on everything but the number of events taken. */
  predicate SameEffect(d: Drain, d': Drain)
  {
    d.resolved == d'.resolved && d.pending == d'.pending && d.panicked == d'.panicked
  }

  /** One event in front of two queues whose drains agree keeps them agreeing. */
  lemma ConsSameEffect(e: CqEvent, xs: seq<CqEvent>, ys: seq<CqEvent>, pending: Table)
    requires e.CqShutdown? || SameEffect(PollQueue(xs, AfterEvent(e, pending)), PollQueue(ys, AfterEvent(e, pending)))
    ensures SameEffect(PollQueue([e] + xs, pending), PollQueue([e] + ys, pending))
  {
    assert ([e] + xs)[0] == e && ([e] + xs)[1..] == xs;
    assert ([e] + ys)[0] == e && ([e] + ys)[1..] == ys;
    match e {
      case CqShutdown =>
      case CqTimeout =>
      case CqOpComplete(tag, success, ctx) =>
        if tag in pending {
          var r := Resolve(pending[tag], ctx, success != 0);
          if r.Panicked? {
            assert PollQueue([e] + xs, pending).panicked;
          }
        }
    }
  }

  /** One event in front of two queues with equal drains keeps them equal. */
  lemma ConsSameDrain(e: CqEvent, xs: seq<CqEvent>, ys: seq<CqEvent>, pending: Table)
    requires e.CqShutdown? || PollQueue(xs, AfterEvent(e, pending)) == PollQueue(ys, AfterEvent(e, pending))
    ensures PollQueue([e] + xs, pending) == PollQueue([e] + ys, pending)
  {
    assert ([e] + xs)[0] == e && ([e] + xs)[1..] == xs;
    assert ([e] + ys)[0] == e && ([e] + ys)[1..] == ys;
    match e {
      case CqShutdown =>
      case CqTimeout =>
      case CqOpComplete(tag, success, ctx) =>
        if tag in pending {
          var r := Resolve(pending[tag], ctx, success != 0);
          if r.Panicked? {
            assert PollQueue([e] + xs, pending).panicked;
          }
        }
    }
  }

  lemma Peel(before: seq<CqEvent>, mid: seq<CqEvent>, after: seq<CqEvent>)
    requires |before| > 0
    ensures before + mid == [before[0]] + (before[1..] + mid)
    ensures before + mid + after == [before[0]] + (before[1..] + mid + after)
  {
    assert before == [before[0]] + before[1..];
  }

  /** The loop stops at the first shutdown event: whatever follows it is
      never taken off the queue. */
  lemma {:induction false} StopsAtShutdown(before: seq<CqEvent>, after: seq<CqEvent>, pending: Table)
    requires forall i :: 0 <= i < |before| ==> !before[i].CqShutdown?
    ensures var d := PollQueue(before + [CqShutdown] + after, pending);
            && d == PollQueue(before + [CqShutdown], pending)
            && d.consumed <= |before| + 1
    decreases |before|
  {
    if |before| == 0 {
      ConsSameDrain(CqShutdown, after, [], pending);
      assert before + [CqShutdown] + after == [CqShutdown] + after;
      assert before + [CqShutdown] == [CqShutdown] + [];
    } else {
      var e, b := before[0], before[1..];
      StopsAtShutdown(b, after, AfterEvent(e, pending));
      ConsSameDrain(e, b + [CqShutdown] + after, b + [CqShutdown], pending);
      Peel(before, [CqShutdown], after);
    }
  }

  /** Timeouts have no effect: inserting one anywhere changes nothing but
      the number of events taken off the queue. */
  lemma {:induction false} TimeoutIsSkipped(before: seq<CqEvent>, after: seq<CqEvent>, pending: Table)
    ensures SameEffect(PollQueue(before + [CqTimeout] + after, pending), PollQueue(before + after, pending))
    decreases |before|
  {
    if |before| == 0 {
      var es := before + [CqTimeout] + after;
      assert es[0] == CqTimeout && es[1..] == after;
      assert before + after == after;
    } else {
      var e, b := before[0], before[1..];
      if !e.CqShutdown? {
        TimeoutIsSkipped(b, after, AfterEvent(e, pending));
      }
      ConsSameEffect(e, b + [CqTimeout] + after, b + after, pending);
      Peel(before, [CqTimeout], after);
      Peel(before, after, []);
    }
  }

  /** The environment's completion queues, by identity. */
  datatype Environment = Environment(cqs: seq<nat>)

  /** `Environment::new`: a zero count fails the assertion (`None`);
      otherwise one fresh queue (and one poller thread) per count. */
  function NewEnvironment(cqCount: nat): (r: Option<Environment>)
    ensures r.None? <==> cqCount == 0
    ensures r.Some? ==> |r.value.cqs| == cqCount
    ensures r.Some? ==> forall i, j :: 0 <= i < j < |r.value.cqs| ==> r.value.cqs[i] != r.value.cqs[j]
  {
    if cqCount == 0 then None
    else Some(Environment(seq(cqCount, i => i)))
  }

  /** `pick_a_cq`: always the first queue. */
  function PickACq(env: Environment): (cq: nat)
    requires |env.cqs| > 0
    ensures cq == env.cqs[0] && cq in env.cqs
  {
    env.cqs[0]
  }
}
