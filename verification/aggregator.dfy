/** `processResult`: the single consumer that turns sample results into rows,
    buffers them, flushes the buffer by count or by age, uploads external
    events on their own, and stops on shutdown. The select loop becomes a
    pure step function over one input at a time; the clock reading and the
    backends' answers arrive with each input. */
module Aggregator {
  import opened Wrappers
  import opened Schema
  import opened Uploader

  /** The configuration `processResult` reads: `FlagBufferSize`,
      `UploadInterval` (in clock units) and the backend list. */
  datatype Config = Config(flagBufferSize: int, uploadInterval: int, backends: seq<Backend>)

  /** The aggregator's local state: the host name cached at start, the
      pending rows and the instant of the last reset (`updateTime`). */
  datatype State = State(hostname: string, rows: seq<Row>, updateTime: nat)

  /** The three cases of the select statement. */
  datatype Input =
    | SampleResult(status: UnitStatus)
    | ExternalEvent(event: BigQuerySchema)
    | Shutdown

  /** One received input, the clock reading taken while handling it, and the
      answers the backends give if an upload happens. */
  datatype Tick = Tick(input: Input, now: nat, answer: PutOracle)

  /** What handling one input sent to the backends. */
  datatype Effect =
    | Quiet
    | EventUpload(event: Delivery<seq<Row>>)
    | Flush(batch: seq<Row>, flush: Delivery<seq<Row>>)

  /** After an input the loop either goes on or has returned; on return the
      pending rows are dropped. */
  datatype Outcome = Running(state: State, effect: Effect) | Stopped(dropped: seq<Row>)

  /** The set-up before the loop: empty buffer, `updateTime` at the start
      instant, and the host name or its sentinel. */
  function Start(lookup: Option<string>, now: nat): (s: State)
    ensures s.rows == [] && s.updateTime == now
    ensures lookup.Some? ==> s.hostname == lookup.value
    ensures lookup.None? ==> s.hostname == UndefinedHostname
  {
    State(ResolveHostname(lookup), [], now)
  }

  /** The flush condition, checked after appending: the buffer has reached
      `FlagBufferSize`, or `UploadInterval` has elapsed since the last reset. */
  predicate FlushDue(cfg: Config, rows: seq<Row>, updateTime: nat, now: nat)
  {
    |rows| >= cfg.flagBufferSize || now - updateTime >= cfg.uploadInterval
  }

  /** A flush effect whose upload returned nil. */
  predicate FlushSucceeded(e: Effect)
  {
    e.Flush? && e.flush.error.None?
  }

  /** One iteration of the select loop. */
  function Process(cfg: Config, st: State, t: Tick): (o: Outcome)
    ensures t.input.Shutdown? <==> o.Stopped?
    ensures o.Stopped? ==> o.dropped == st.rows
    ensures o.Running? ==> o.state.hostname == st.hostname
    // an external event goes out alone and leaves the buffer and clock alone
    ensures t.input.ExternalEvent? ==>
              && o.Running? && o.state == st
              && o.effect.EventUpload?
              && o.effect.event == Upload([ToRow(t.input.event)], cfg.backends, t.answer)
    // a sample result is appended, and a flush is tried exactly when due
    ensures t.input.SampleResult? ==>
              var row := SampleRow(t.input.status, st.hostname, t.now);
              && o.Running?
              && (o.effect.Flush? <==> FlushDue(cfg, st.rows + [row], st.updateTime, t.now))
              && (!FlushDue(cfg, st.rows + [row], st.updateTime, t.now) ==> o.effect.Quiet?)
              && (o.effect.Flush? ==>
                    && o.effect.batch == st.rows + [row]
                    && o.effect.flush == Upload(o.effect.batch, cfg.backends, t.answer))
              && (FlushSucceeded(o.effect) ==> o.state.rows == [] && o.state.updateTime == t.now)
              && (!FlushSucceeded(o.effect) ==>
                    && o.state.rows == st.rows + [row]
                    && o.state.updateTime == st.updateTime)
  {
    match t.input
    case Shutdown =>
      Stopped(st.rows)
    case ExternalEvent(event) =>
      Running(st, EventUpload(Upload([ToRow(event)], cfg.backends, t.answer)))
    case SampleResult(status) =>
      var rows := st.rows + [SampleRow(status, st.hostname, t.now)];
      if FlushDue(cfg, rows, st.updateTime, t.now) then
        var d := Upload(rows, cfg.backends, t.answer);
        if d.error.Some? then
          Running(st.(rows := rows), Flush(rows, d))
        else
          Running(st.(rows := [], updateTime := t.now), Flush(rows, d))
      else
        Running(st.(rows := rows), Quiet)
  }

  /** The loop over a sequence of inputs: one outcome per handled input,
      ending at the first shutdown. */
  function Run(cfg: Config, st: State, ticks: seq<Tick>): (trace: seq<Outcome>)
    ensures |trace| <= |ticks|
    ensures forall i :: 0 <= i < |trace| - 1 ==> trace[i].Running?
    ensures ticks != [] ==> trace != []
    ensures |trace| == |ticks| || trace[|trace| - 1].Stopped?
    decreases |ticks|
  {
    if ticks == [] then []
    else
      var o := Process(cfg, st, ticks[0]);
      match o
      case Stopped(_) => [o]
      case Running(next, _) =>
        [o] + Run(cfg, next, ticks[1..])
  }

  /** `Run` handles the inputs step by step, in order, and stops exactly at
      the first shutdown. */
  lemma {:induction false} RunIsStepwise(cfg: Config, st: State, ticks: seq<Tick>)
    ensures Stepwise(cfg, st, ticks, Run(cfg, st, ticks))
    decreases |ticks|
  {
    if ticks != [] {
      var o := Process(cfg, st, ticks[0]);
      if o.Running? {
        RunIsStepwise(cfg, o.state, ticks[1..]);
        RunCons(cfg, st, ticks, Run(cfg, o.state, ticks[1..]));
      }
    }
  }

  /** A trace handles `ticks` step by step from `st`: each outcome is
      `Process` applied to the state the previous one left, it stops exactly
      at a shutdown, and it ends early only at that stop. */
  ghost predicate Stepwise(cfg: Config, st: State, ticks: seq<Tick>, trace: seq<Outcome>)
  {
    && |trace| <= |ticks|
    && (forall i :: 0 <= i < |trace| - 1 ==> trace[i].Running?)
    && (ticks != [] ==> trace != [] && trace[0] == Process(cfg, st, ticks[0]))
    && (forall i :: 0 < i < |trace| ==> trace[i] == Process(cfg, trace[i - 1].state, ticks[i]))
    && (forall i :: 0 <= i < |trace| ==> (trace[i].Stopped? <==> ticks[i].input.Shutdown?))
    && (|trace| == |ticks| || trace[|trace| - 1].Stopped?)
  }

  /** Handling the first input and then the rest step by step is handling
      the whole sequence step by step. */
  lemma RunCons(cfg: Config, st: State, ticks: seq<Tick>, tail: seq<Outcome>)
    requires ticks != [] && Process(cfg, st, ticks[0]).Running?
    requires Stepwise(cfg, Process(cfg, st, ticks[0]).state, ticks[1..], tail)
    ensures Stepwise(cfg, st, ticks, [Process(cfg, st, ticks[0])] + tail)
  {
    var o := Process(cfg, st, ticks[0]);
    ConsKeepsRunning(o, tail);
    ConsStopsAtShutdown(o, tail, ticks);
    ConsSteps(cfg, o, tail, ticks);
  }

  /** Putting a running outcome in front keeps every outcome but the last running. */
  lemma ConsKeepsRunning(o: Outcome, tail: seq<Outcome>)
    requires o.Running?
    requires forall i :: 0 <= i < |tail| - 1 ==> tail[i].Running?
    ensures forall i :: 0 <= i < |[o] + tail| - 1 ==> ([o] + tail)[i].Running?
  {
    forall i | 0 <= i < |[o] + tail| - 1
      ensures ([o] + tail)[i].Running?
    {
      if i > 0 {
        assert ([o] + tail)[i] == tail[i - 1];
      }
    }
  }

  /** Stopping exactly at a shutdown carries over to the longer trace. */
  lemma ConsStopsAtShutdown(o: Outcome, tail: seq<Outcome>, ticks: seq<Tick>)
    requires ticks != [] && |tail| < |ticks|
    requires o.Stopped? <==> ticks[0].input.Shutdown?
    requires forall i :: 0 <= i < |tail| ==> (tail[i].Stopped? <==> ticks[1..][i].input.Shutdown?)
    ensures forall i :: 0 <= i < |[o] + tail| ==> (([o] + tail)[i].Stopped? <==> ticks[i].input.Shutdown?)
  {
    forall i | 0 <= i < |[o] + tail|
      ensures ([o] + tail)[i].Stopped? <==> ticks[i].input.Shutdown?
    {
      if i > 0 {
        assert ([o] + tail)[i] == tail[i - 1] && ticks[i] == ticks[1..][i - 1];
      }
    }
  }

  /** Each later outcome is still one step from the one before it. */
  lemma ConsSteps(cfg: Config, o: Outcome, tail: seq<Outcome>, ticks: seq<Tick>)
    requires ticks != [] && |tail| < |ticks| && o.Running?
    requires forall i :: 0 <= i < |tail| - 1 ==> tail[i].Running?
    requires forall i :: 0 <= i < |[o] + tail| - 1 ==> ([o] + tail)[i].Running?
    requires tail != [] ==> tail[0] == Process(cfg, o.state, ticks[1..][0])
    requires forall i :: 0 < i < |tail| ==> tail[i] == Process(cfg, tail[i - 1].state, ticks[1..][i])
    ensures forall i :: 0 < i < |[o] + tail| ==> ([o] + tail)[i] == Process(cfg, ([o] + tail)[i - 1].state, ticks[i])
  {
    var trace := [o] + tail;
    forall i | 0 < i < |trace|
      ensures trace[i] == Process(cfg, trace[i - 1].state, ticks[i])
    {
      assert trace[i] == tail[i - 1] && ticks[i] == ticks[1..][i - 1];
      if i > 1 {
        assert trace[i - 1] == tail[i - 2];
      }
    }
  }

  /** The rows the sample results among `ticks` turn into, in arrival order. */
  function SampleRows(hostname: string, ticks: seq<Tick>): (rows: seq<Row>)
    ensures |rows| <= |ticks|
    decreases |ticks|
  {
    if ticks == [] then []
    else
      var rest := SampleRows(hostname, ticks[1..]);
      match ticks[0].input
      case SampleResult(status) => [SampleRow(status, hostname, ticks[0].now)] + rest
      case _ => rest
  }

  /** The rows of every periodic batch that was uploaded successfully, in order. */
  function Delivered(trace: seq<Outcome>): (rows: seq<Row>)
    decreases |trace|
  {
    if trace == [] then []
    else
      DeliveredBy(trace[0]) + Delivered(trace[1..])
  }

  /** The rows still pending after the trace (or dropped by its shutdown). */
  function Pending(st: State, trace: seq<Outcome>): (rows: seq<Row>)
    decreases |trace|
  {
    if trace == [] then st.rows
    else
      match trace[0]
      case Stopped(dropped) => dropped
      case Running(next, _) => Pending(next, trace[1..])
  }

  /** The rows one handled input delivers successfully. */
  function DeliveredBy(o: Outcome): (rows: seq<Row>)
  {
    if o.Running? && FlushSucceeded(o.effect) then o.effect.batch else []
  }

  /** One input conserves rows: the old buffer plus the new sample row (if
      any) equals what a successful flush delivered plus what is pending. */
  lemma StepConservesRows(cfg: Config, st: State, t: Tick)
    ensures var o := Process(cfg, st, t);
            o.Running? ==> st.rows + SampleRows(st.hostname, [t]) == DeliveredBy(o) + o.state.rows
  {
    assert [t][1..] == [];
    assert SampleRows(st.hostname, [t][1..]) == [];
  }

  /** The conservation equation of `RowsConserved` for one start state and input sequence. */
  ghost predicate Conserves(cfg: Config, st: State, ticks: seq<Tick>)
  {
    var trace := Run(cfg, st, ticks);
    st.rows + SampleRows(st.hostname, ticks[..|trace|]) == Delivered(trace) + Pending(st, trace)
  }

  /** Every row that ever enters the buffer is, after any sequence of inputs,
      either in exactly one successfully uploaded batch or still pending:
      nothing is lost or duplicated by the aggregator, whatever the backends
      answer, because a failed flush keeps its rows. */
  lemma {:induction false} RowsConserved(cfg: Config, st: State, ticks: seq<Tick>)
    ensures var trace := Run(cfg, st, ticks);
            st.rows + SampleRows(st.hostname, ticks[..|trace|]) == Delivered(trace) + Pending(st, trace)
    decreases |ticks|
  {
    if ticks == [] {
      assert Run(cfg, st, ticks) == [];
    } else if Process(cfg, st, ticks[0]).Stopped? {
      ConservedAtShutdown(cfg, st, ticks);
    } else {
      RowsConserved(cfg, Process(cfg, st, ticks[0]).state, ticks[1..]);
      ConservedThroughStep(cfg, st, ticks);
    }
  }

  /** A shutdown as first input drops exactly the pending rows. */
  lemma ConservedAtShutdown(cfg: Config, st: State, ticks: seq<Tick>)
    requires ticks != [] && Process(cfg, st, ticks[0]).Stopped?
    ensures Conserves(cfg, st, ticks)
  {
    var o := Process(cfg, st, ticks[0]);
    var trace := Run(cfg, st, ticks);
    assert trace == [o];
    assert ticks[..|trace|] == [ticks[0]];
    assert SampleRows(st.hostname, [ticks[0]]) == [] by {
      assert [ticks[0]][1..] == [];
    }
    assert Delivered(trace) == [] by { assert trace[1..] == []; }
  }

  /** Conservation after the first input follows from conservation after the rest. */
  lemma ConservedThroughStep(cfg: Config, st: State, ticks: seq<Tick>)
    requires ticks != [] && Process(cfg, st, ticks[0]).Running?
    requires Conserves(cfg, Process(cfg, st, ticks[0]).state, ticks[1..])
    ensures Conserves(cfg, st, ticks)
  {
    var o := Process(cfg, st, ticks[0]);
    RunUnfolds(cfg, st, ticks);
    StepConservesRows(cfg, st, ticks[0]);
    ChainConservation(st, ticks, o, Run(cfg, o.state, ticks[1..]), Run(cfg, st, ticks));
  }

  /** A running first step puts its outcome in front of the rest of the trace. */
  lemma RunUnfolds(cfg: Config, st: State, ticks: seq<Tick>)
    requires ticks != [] && Process(cfg, st, ticks[0]).Running?
    ensures Run(cfg, st, ticks) == [Process(cfg, st, ticks[0])] + Run(cfg, Process(cfg, st, ticks[0]).state, ticks[1..])
  {
  }

  /** The bookkeeping of `ConservedThroughStep`, free of `Process` and `Run`:
      conservation over one outcome followed by conservation over the rest. */
  lemma ChainConservation(st: State, ticks: seq<Tick>, o: Outcome, tail: seq<Outcome>, trace: seq<Outcome>)
    requires ticks != [] && trace == [o] + tail
    requires o.Running? && o.state.hostname == st.hostname && |tail| <= |ticks| - 1
    requires st.rows + SampleRows(st.hostname, [ticks[0]]) == DeliveredBy(o) + o.state.rows
    requires o.state.rows + SampleRows(o.state.hostname, ticks[1..][..|tail|]) == Delivered(tail) + Pending(o.state, tail)
    ensures st.rows + SampleRows(st.hostname, ticks[..|trace|]) == Delivered(trace) + Pending(st, trace)
  {
    var rest := ticks[1..][..|tail|];
    SliceFront(ticks, |trace|);
    SampleRowsAppend(st.hostname, [ticks[0]], rest);
    DeliveredCons(o, tail);
    PendingCons(st, o, tail);
    Splice(st.rows, SampleRows(st.hostname, [ticks[0]]), SampleRows(st.hostname, rest),
           DeliveredBy(o), o.state.rows, Delivered(tail), Pending(o.state, tail));
  }

  /** A non-empty prefix is the first element followed by a prefix of the rest. */
  lemma SliceFront<T>(s: seq<T>, n: nat)
    requires 1 <= n <= |s|
    ensures s[..n] == [s[0]] + s[1..][..n - 1]
  {
  }

  /** `Delivered` over a trace with a known first outcome. */
  lemma DeliveredCons(o: Outcome, tail: seq<Outcome>)
    ensures Delivered([o] + tail) == DeliveredBy(o) + Delivered(tail)
  {
    assert ([o] + tail)[1..] == tail;
  }

  /** `Pending` over a trace whose first outcome is still running. */
  lemma PendingCons(st: State, o: Outcome, tail: seq<Outcome>)
    requires o.Running?
    ensures Pending(st, [o] + tail) == Pending(o.state, tail)
  {
    assert ([o] + tail)[1..] == tail;
  }

  /** Chains two conservation equations through the state between them. */
  lemma Splice<T>(before: seq<T>, added: seq<T>, later: seq<T>, sent: seq<T>, mid: seq<T>, sentLater: seq<T>, left: seq<T>)
    requires before + added == sent + mid
    requires mid + later == sentLater + left
    ensures before + (added + later) == (sent + sentLater) + left
  {
    calc {
      before + (added + later);
      (before + added) + later;
      (sent + mid) + later;
      sent + (mid + later);
      sent + (sentLater + left);
    }
  }

  /** Sample rows of concatenated input sequences concatenate. */
  lemma {:induction false} SampleRowsAppend(hostname: string, a: seq<Tick>, b: seq<Tick>)
    ensures SampleRows(hostname, a + b) == SampleRows(hostname, a) + SampleRows(hostname, b)
    decreases |a|
  {
    if a != [] {
      var ab := a + b;
      assert ab[0] == a[0];
      assert ab[1..] == a[1..] + b;
      SampleRowsAppend(hostname, a[1..], b);
      var rest := SampleRows(hostname, a[1..]) + SampleRows(hostname, b);
      assert SampleRows(hostname, ab[1..]) == rest;
      match a[0].input
      case SampleResult(status) =>
        var r := SampleRow(status, hostname, a[0].now);
        assert SampleRows(hostname, ab) == [r] + rest;
        assert SampleRows(hostname, a) == [r] + SampleRows(hostname, a[1..]);
        assert [r] + rest == ([r] + SampleRows(hostname, a[1..])) + SampleRows(hostname, b);
      case _ =>
        assert SampleRows(hostname, ab) == rest;
        assert SampleRows(hostname, a) == SampleRows(hostname, a[1..]);
    } else {
      assert a + b == b;
    }
  }

  /** No periodic flush in the trace failed. */
  predicate NoFailedFlush(trace: seq<Outcome>)
  {
    forall i :: 0 <= i < |trace| ==> trace[i].Running? && trace[i].effect.Flush? ==> trace[i].effect.flush.error.None?
  }

  /** Every state in the trace holds fewer than `size` rows. */
  predicate BelowSize(trace: seq<Outcome>, size: int)
  {
    forall i :: 0 <= i < |trace| && trace[i].Running? ==> |trace[i].state.rows| < size
  }

  /** While every flush succeeds and `FlagBufferSize` is at least one, the
      buffer stays strictly below `FlagBufferSize` after every input. */
  lemma {:induction false} BufferStaysBelowSize(cfg: Config, st: State, ticks: seq<Tick>)
    requires cfg.flagBufferSize >= 1
    requires |st.rows| < cfg.flagBufferSize
    requires NoFailedFlush(Run(cfg, st, ticks))
    ensures BelowSize(Run(cfg, st, ticks), cfg.flagBufferSize)
    decreases |ticks|
  {
    if ticks != [] {
      var o := Process(cfg, st, ticks[0]);
      if o.Running? {
        var tail := Run(cfg, o.state, ticks[1..]);
        RunUnfolds(cfg, st, ticks);
        assert o == Run(cfg, st, ticks)[0];
        assert |o.state.rows| < cfg.flagBufferSize;
        NoFailedFlushTail(o, tail);
        BufferStaysBelowSize(cfg, o.state, ticks[1..]);
        BelowSizeCons(o, tail, cfg.flagBufferSize);
      } else {
        assert Run(cfg, st, ticks) == [o];
      }
    }
  }

  /** A trace without failed flushes has none after its first outcome either. */
  lemma NoFailedFlushTail(o: Outcome, tail: seq<Outcome>)
    requires NoFailedFlush([o] + tail)
    ensures NoFailedFlush(tail)
  {
    forall i | 0 <= i < |tail| ensures tail[i] == ([o] + tail)[i + 1] { }
  }

  /** A running outcome below the size in front of a trace below the size. */
  lemma BelowSizeCons(o: Outcome, tail: seq<Outcome>, size: int)
    requires o.Running? && |o.state.rows| < size
    requires BelowSize(tail, size)
    ensures BelowSize([o] + tail, size)
  {
    forall i | 0 <= i < |[o] + tail| && ([o] + tail)[i].Running?
      ensures |([o] + tail)[i].state.rows| < size
    {
      if i > 0 {
        assert ([o] + tail)[i] == tail[i - 1];
      }
    }
  }

  /** A flush that fails is tried again on the next sample result, provided
      the clock has not gone backwards: the batch of the retry begins with
      every row of the failed batch. The first backend is called in both
      attempts, so when it was not the one that failed it receives those rows
      twice. */
  lemma FailedFlushRetriedOnNextSample(cfg: Config, st: State, t1: Tick, t2: Tick)
    requires t1.input.SampleResult? && t2.input.SampleResult?
    requires t1.now <= t2.now
    requires var o := Process(cfg, st, t1); o.effect.Flush? && o.effect.flush.error.Some?
    ensures var o1 := Process(cfg, st, t1);
            var o2 := Process(cfg, o1.state, t2);
            && o2.effect.Flush?
            && |o2.effect.batch| == |o1.effect.batch| + 1
            && o2.effect.batch[..|o1.effect.batch|] == o1.effect.batch
            && (|cfg.backends| > 0 ==>
                  && o1.effect.flush.calls[0] == Call(cfg.backends[0].id, o1.effect.batch)
                  && o2.effect.flush.calls[0] == Call(cfg.backends[0].id, o2.effect.batch))
  {
    var o1 := Process(cfg, st, t1);
    assert o1.state.rows == o1.effect.batch;
  }

  /** The age of the buffer is looked at only when a sample result arrives:
      an external event or a shutdown never flushes, however long ago the
      last reset was, and leaves the buffered rows as they are (a shutdown
      drops them). */
  lemma AgeAloneNeverFlushes(cfg: Config, st: State, t: Tick)
    requires !t.input.SampleResult?
    ensures var o := Process(cfg, st, t);
            && (o.Running? ==> !o.effect.Flush? && o.state.rows == st.rows)
            && (o.Stopped? ==> o.dropped == st.rows)
  {
  }

  /** Without a shutdown among the inputs the loop handles every input and
      keeps running. */
  lemma {:induction false} RunWithoutShutdown(cfg: Config, st: State, ticks: seq<Tick>)
    requires forall i :: 0 <= i < |ticks| ==> !ticks[i].input.Shutdown?
    ensures var trace := Run(cfg, st, ticks);
            |trace| == |ticks| && forall i :: 0 <= i < |trace| ==> trace[i].Running?
    decreases |ticks|
  {
    if ticks != [] {
      var o := Process(cfg, st, ticks[0]);
      var tail := Run(cfg, o.state, ticks[1..]);
      RunWithoutShutdown(cfg, o.state, ticks[1..]);
      assert Run(cfg, st, ticks) == [o] + tail;
    }
  }

  /** No periodic flush in the trace succeeded. */
  predicate NoSucceededFlush(trace: seq<Outcome>)
  {
    forall i :: 0 <= i < |trace| ==> !(trace[i].Running? && FlushSucceeded(trace[i].effect))
  }

  /** While flushes keep failing, the buffer only grows: after any number of
      sample results and external events it holds the old rows followed by
      the row of every sample result. */
  lemma RowsAccumulateWhileFlushesFail(cfg: Config, st: State, ticks: seq<Tick>)
    requires ticks != []
    requires forall i :: 0 <= i < |ticks| ==> !ticks[i].input.Shutdown?
    requires NoSucceededFlush(Run(cfg, st, ticks))
    ensures var trace := Run(cfg, st, ticks);
            && |trace| == |ticks|
            && trace[|trace| - 1].Running?
            && trace[|trace| - 1].state.rows == st.rows + SampleRows(st.hostname, ticks)
  {
    var trace := Run(cfg, st, ticks);
    RunWithoutShutdown(cfg, st, ticks);
    RowsConserved(cfg, st, ticks);
    assert ticks[..|trace|] == ticks;
    NothingDeliveredWithoutSuccess(trace);
    PendingIsLastState(st, trace);
  }

  /** A trace without a successful flush delivers no rows. */
  lemma {:induction false} NothingDeliveredWithoutSuccess(trace: seq<Outcome>)
    requires NoSucceededFlush(trace)
    ensures Delivered(trace) == []
    decreases |trace|
  {
    if trace != [] {
      NothingDeliveredWithoutSuccess(trace[1..]);
    }
  }

  /** For a trace that never stopped, the pending rows are those of the last state. */
  lemma {:induction false} PendingIsLastState(st: State, trace: seq<Outcome>)
    requires trace != []
    requires forall i :: 0 <= i < |trace| ==> trace[i].Running?
    ensures Pending(st, trace) == trace[|trace| - 1].state.rows
    decreases |trace|
  {
    if |trace| > 1 {
      PendingIsLastState(trace[0].state, trace[1..]);
    } else {
      assert trace[1..] == [];
    }
  }
}
