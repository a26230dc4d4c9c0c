/** The asynchronous span exporter: a bounded queue, one batching worker and its counters. */
module SpanQueue {
  import opened Basics

  const SECOND := 1_000_000_000
  const MINUTE := 60 * SECOND
  const HOUR := 60 * MINUTE

  datatype Span = Span(traceID: string, spanID: string, name: string)

  datatype Config = Config(queueSize: int, batchSize: int, flushInterval: int, exportTimeout: int, maxRetries: int, retryBackoff: int)

  const DEFAULTS := Config(2048, 128, SECOND, 5 * SECOND, 3, 100_000_000)

  predicate InRange(c: Config) {
    && 1 <= c.queueSize <= 65536
    && 1 <= c.batchSize <= 4096 && c.batchSize <= c.queueSize
    && 0 < c.flushInterval <= HOUR && 0 < c.exportTimeout <= MINUTE
    && 0 <= c.maxRetries <= 8 && 0 < c.retryBackoff <= MINUTE
  }

  /** The clamping newAsyncOTLPExporter does; what is in range already is kept. */
  function Clamp(c: Config): (r: Config)
    ensures InRange(r)
    ensures InRange(c) ==> r == c
  {
    var queueSize := if c.queueSize <= 0 then DEFAULTS.queueSize else Min(c.queueSize, 65536);
    var batchSize := if c.batchSize <= 0 then DEFAULTS.batchSize else c.batchSize;
    var batchSize := if batchSize > queueSize then queueSize else batchSize;
    Config(queueSize, Min(batchSize, 4096),
           if c.flushInterval <= 0 then DEFAULTS.flushInterval else Min(c.flushInterval, HOUR),
           if c.exportTimeout <= 0 then DEFAULTS.exportTimeout else Min(c.exportTimeout, MINUTE),
           if c.maxRetries < 0 then 0 else Min(c.maxRetries, 8),
           if c.retryBackoff <= 0 then DEFAULTS.retryBackoff else Min(c.retryBackoff, MINUTE))
  }

  /** Every setting exactly: its default where it is not positive, its limit where it is above it, and itself otherwise. */
  lemma ClampExactly(c: Config)
    ensures var r := Clamp(c);
            && r.queueSize == (if c.queueSize <= 0 then 2048 else if c.queueSize > 65536 then 65536 else c.queueSize)
            && r.batchSize == Min(4096, Min(r.queueSize, if c.batchSize <= 0 then 128 else c.batchSize))
            && r.flushInterval == (if c.flushInterval <= 0 then 1_000_000_000 else Min(c.flushInterval, 3_600_000_000_000))
            && r.exportTimeout == (if c.exportTimeout <= 0 then 5_000_000_000 else Min(c.exportTimeout, 60_000_000_000))
            && r.maxRetries == (if c.maxRetries < 0 then 0 else if c.maxRetries > 8 then 8 else c.maxRetries)
            && r.retryBackoff == (if c.retryBackoff <= 0 then 100_000_000 else Min(c.retryBackoff, 60_000_000_000))
  {
  }

  // ----- retry delay -----

  /** A 64-bit signed value after a shift that may overflow. */
  function Wrap64(v: int): int {
    var m := v % TWO_64;
    if m < TWO_64 / 2 then m else m - TWO_64
  }

  /** RetryBackoff << attempt, replaced by a minute when it overflowed or is longer. */
  function Delay(backoff: int, attempt: nat): int {
    var delay := Wrap64(backoff * Pow2(attempt));
    if delay <= 0 || delay > MINUTE then MINUTE else delay
  }

  lemma {:induction false} Pow2Bound(n: nat)
    requires n <= 8
    ensures 1 <= Pow2(n) <= 256
  {
    if n != 0 {
      assert Pow2(8) == 256;
      if n < 8 { Pow2Below(n); }
    }
  }

  lemma {:induction false} Pow2Below(n: nat)
    requires n <= 8
    ensures 1 <= Pow2(n) && Pow2(n) * Pow2(8 - n) == 256 && 1 <= Pow2(8 - n)
    decreases n
  {
    if n == 0 {
      assert Pow2(8) == 2 * Pow2(7) == 4 * Pow2(6) == 8 * Pow2(5) == 16 * Pow2(4);
    } else {
      Pow2Below(n - 1);
      assert Pow2(8 - (n - 1)) == 2 * Pow2(8 - n);
    }
  }

  /** The shift never overflows: the delay is the backoff doubled per attempt, capped at a minute. */
  lemma DelayIsCappedDoubling(backoff: int, attempt: nat)
    requires 0 < backoff <= MINUTE && attempt <= 8
    ensures Delay(backoff, attempt) == Min(backoff * Pow2(attempt), MINUTE)
    ensures 0 < Delay(backoff, attempt) <= MINUTE
  {
    Pow2Bound(attempt);
    ProductBound(backoff, Pow2(attempt));
    WrapSmall(backoff * Pow2(attempt));
    hide Pow2, Wrap64;
  }

  lemma ProductBound(a: int, b: int)
    requires 0 < a <= MINUTE && 1 <= b <= 256
    ensures 0 < a * b <= MINUTE * 256
  {
    assert a * b <= a * 256 by { assert a * (256 - b) >= 0; }
  }

  lemma WrapSmall(v: int)
    requires 0 < v < TWO_64 / 2
    ensures Wrap64(v) == v
  {
  }

  // ----- the exporter as steps -----

  datatype Mode = Looping | Draining | Final

  /** What the worker is doing; in `Sending` the batch is with the collector for attempt `attempt`. */
  datatype Phase = Idle(mode: Mode) | Sending(mode: Mode, attempt: nat) | Settling(mode: Mode, ok: bool) | Stopped

  datatype Outcome = Delivered | Retryable | Permanent

  /**
   * Producers between the enqueue and the counter increment are `uncounted`. The rest of the
   * second group is history: what was offered, enqueued, handed over and delivered, how often each
   * batch was tried and every delay computed.
   */
  datatype Exporter = Exporter(
    cfg: Config, queue: seq<Span>, batch: seq<Span>, phase: Phase, closed: bool, uncounted: nat,
    accepted: nat, exported: nat, dropped: nat, failed: nat, retries: nat, batches: nat,
    offered: nat, enqueued: seq<Span>, handed: seq<seq<Span>>, delivered: seq<seq<Span>>, tries: seq<nat>, delays: seq<int>)

  function New(c: Config): Exporter {
    Exporter(Clamp(c), [], [], Idle(Looping), false, 0, 0, 0, 0, 0, 0, 0, 0, [], [], [], [], [])
  }

  /** Export up to the enqueue or the drop. */
  function Offer(e: Exporter, span: Span): Exporter {
    var e := e.(offered := e.offered + 1);
    if e.closed || |e.queue| >= e.cfg.queueSize then e.(dropped := e.dropped + 1)
    else e.(queue := e.queue + [span], uncounted := e.uncounted + 1, enqueued := e.enqueued + [span])
  }

  function BeginSend(e: Exporter, mode: Mode): Exporter {
    e.(phase := Sending(mode, 0), handed := e.handed + [e.batch], tries := e.tries + [0])
  }

  function Take(e: Exporter): Exporter
    requires e.phase.Idle? && e.queue != []
  {
    var e := e.(batch := e.batch + [e.queue[0]], queue := e.queue[1..]);
    if |e.batch| >= e.cfg.batchSize then BeginSend(e, e.phase.mode) else e
  }

  /** One call of the collector and what it answered. */
  function Answer(e: Exporter, outcome: Outcome): Exporter
    requires e.phase.Sending? && e.tries != []
  {
    var attempt := e.phase.attempt;
    var e := e.(tries := e.tries[|e.tries| - 1 := attempt + 1]);
    if outcome.Delivered? then
      e.(exported := e.exported + |e.batch|, delivered := e.delivered + [e.batch], phase := Settling(e.phase.mode, true))
    else if attempt >= e.cfg.maxRetries || outcome.Permanent? then
      e.(failed := e.failed + |e.batch|, phase := Settling(e.phase.mode, false))
    else
      e.(retries := e.retries + 1, delays := e.delays + [Delay(e.cfg.retryBackoff, attempt)], phase := Sending(e.phase.mode, attempt + 1))
  }

  /** The second counter of a finished batch, after which the batch buffer is reused. */
  function Settle(e: Exporter): Exporter
    requires e.phase.Settling?
  {
    var e := if e.phase.ok then e.(batches := e.batches + 1) else e.(dropped := e.dropped + |e.batch|);
    e.(batch := [], phase := if e.phase.mode.Final? then Stopped else Idle(e.phase.mode))
  }

  datatype Step = DoOffer(span: Span) | Count | DoClose | DoTake | Tick | SeeStop | DoAnswer(outcome: Outcome) | DoSettle | Finish

  /** Producers, Close and the worker interleave freely; a step that is not enabled changes nothing. */
  function Apply(e: Exporter, step: Step): Exporter {
    match step
    case DoOffer(span) => Offer(e, span)
    case Count => if e.uncounted > 0 then e.(accepted := e.accepted + 1, uncounted := e.uncounted - 1) else e
    case DoClose => if e.uncounted == 0 then e.(closed := true) else e
    case DoTake => if e.phase.Idle? && e.queue != [] then Take(e) else e
    case Tick => if e.phase == Idle(Looping) && e.batch != [] then BeginSend(e, Looping) else e
    case SeeStop => if e.phase == Idle(Looping) && e.closed then e.(phase := Idle(Draining)) else e
    case DoAnswer(outcome) => if e.phase.Sending? && e.tries != [] then Answer(e, outcome) else e
    case DoSettle => if e.phase.Settling? then Settle(e) else e
    case Finish =>
      if e.phase == Idle(Draining) && e.queue == [] then
        if e.batch != [] then BeginSend(e, Final) else e.(phase := Stopped)
      else e
  }

  function Run(e: Exporter, steps: seq<Step>): Exporter
    decreases |steps|
  {
    if steps == [] then e else Run(Apply(e, steps[0]), steps[1..])
  }

  // ----- what each step does -----

  /** A span is queued exactly when the exporter is open and has room, and dropped otherwise. */
  lemma OfferEffect(e: Exporter, span: Span)
    ensures var e' := Offer(e, span); var room := !e.closed && |e.queue| < e.cfg.queueSize;
            && e'.offered == e.offered + 1
            && e'.queue == (if room then e.queue + [span] else e.queue)
            && e'.enqueued == (if room then e.enqueued + [span] else e.enqueued)
            && e'.uncounted == (if room then e.uncounted + 1 else e.uncounted)
            && e'.dropped == (if room then e.dropped else e.dropped + 1)
            && e'.(offered := e.offered, queue := e.queue, enqueued := e.enqueued, uncounted := e.uncounted, dropped := e.dropped) == e
  {
  }

  /** The worker takes the oldest span, and hands the batch over exactly when it is full. */
  lemma TakeEffect(e: Exporter)
    requires e.phase.Idle? && e.queue != []
    ensures var e' := Take(e);
            && e'.batch == e.batch + [e.queue[0]] && e'.queue == e.queue[1..]
            && (|e.batch| + 1 < e.cfg.batchSize ==> e'.phase == e.phase && e'.handed == e.handed)
            && (|e.batch| + 1 >= e.cfg.batchSize ==> e'.phase == Sending(e.phase.mode, 0) && e'.handed == e.handed + [e'.batch])
  {
  }

  /** What each answer does: delivered and counted; given up and counted when permanent or the last; otherwise tried again. */
  lemma AnswerEffect(e: Exporter, outcome: Outcome)
    requires e.phase.Sending? && e.tries != []
    ensures var e' := Answer(e, outcome); var again := outcome == Retryable && e.phase.attempt < e.cfg.maxRetries;
            && e'.tries == e.tries[|e.tries| - 1 := e.phase.attempt + 1]
            && e'.delivered == (if outcome == Delivered then e.delivered + [e.batch] else e.delivered)
            && e'.exported == (if outcome == Delivered then e.exported + |e.batch| else e.exported)
            && e'.failed == (if outcome == Delivered || again then e.failed else e.failed + |e.batch|)
            && e'.retries == (if again then e.retries + 1 else e.retries)
            && e'.delays == (if again then e.delays + [Delay(e.cfg.retryBackoff, e.phase.attempt)] else e.delays)
            && e'.phase == (if again then Sending(e.phase.mode, e.phase.attempt + 1) else Settling(e.phase.mode, outcome == Delivered))
            && e'.batch == e.batch && e'.queue == e.queue && e'.handed == e.handed && e'.dropped == e.dropped
            && e'.accepted == e.accepted && e'.cfg == e.cfg
  {
    hide Delay;
  }

  /** When the worker flushes, drains and stops: a partial batch at a tick, the rest of the queue after the close, then the last batch. */
  lemma WorkerEffect(e: Exporter)
    ensures Apply(e, Tick) == if e.phase == Idle(Looping) && e.batch != []
                              then e.(phase := Sending(Looping, 0), handed := e.handed + [e.batch], tries := e.tries + [0]) else e
    ensures Apply(e, SeeStop) == if e.phase == Idle(Looping) && e.closed then e.(phase := Idle(Draining)) else e
    ensures Apply(e, Finish) ==
            if e.phase != Idle(Draining) || e.queue != [] then e
            else if e.batch == [] then e.(phase := Stopped)
            else e.(phase := Sending(Final, 0), handed := e.handed + [e.batch], tries := e.tries + [0])
    ensures Apply(e, DoClose) == if e.uncounted == 0 then e.(closed := true) else e
    ensures Apply(e, Count) == if e.uncounted > 0 then e.(accepted := e.accepted + 1, uncounted := e.uncounted - 1) else e
  {
  }

  // ----- the invariant -----

  /** Spans taken off the queue and in no counter yet. */
  function Batched(e: Exporter): nat { if e.phase.Settling? then 0 else |e.batch| }

  /** Spans of a failed batch that `failed` has and `dropped` has not. */
  function Unsettled(e: Exporter): nat { if e.phase.Settling? && !e.phase.ok then |e.batch| else 0 }

  function Waiting(e: Exporter): seq<Span> { (if e.phase.Idle? then e.batch else []) + e.queue }

  function Total(tries: seq<nat>): nat { if tries == [] then 0 else Total(tries[..|tries| - 1]) + tries[|tries| - 1] }

  ghost predicate Conserved(e: Exporter) {
    && e.accepted + e.uncounted == e.exported + e.failed + |e.queue| + Batched(e)
    && e.offered + e.failed == e.accepted + e.uncounted + e.dropped + Unsettled(e)
    && |e.enqueued| == e.accepted + e.uncounted
  }

  ghost predicate InOrder(e: Exporter) {
    && Flatten(e.handed) + Waiting(e) == e.enqueued
    && (forall i | 0 <= i < |e.handed| :: 1 <= |e.handed[i]| <= e.cfg.batchSize)
    && e.exported == |Flatten(e.delivered)|
    && |e.delivered| == e.batches + if e.phase.Settling? && e.phase.ok then 1 else 0
  }

  ghost predicate Bounded(e: Exporter) {
    && InRange(e.cfg)
    && |e.queue| <= e.cfg.queueSize
    && (e.phase.Idle? ==> |e.batch| < e.cfg.batchSize)
    && (e.phase.Sending? || e.phase.Settling? ==> 1 <= |e.batch| <= e.cfg.batchSize && e.handed != [] && e.handed[|e.handed| - 1] == e.batch)
    && (e.phase.Stopped? ==> e.batch == [] && e.queue == [] && e.closed)
    && (e.closed ==> e.uncounted == 0)
    && (!e.phase.Stopped? && !e.phase.mode.Looping? ==> e.closed)
    && (!e.phase.Stopped? && e.phase.mode.Final? ==> e.queue == [] && !e.phase.Idle?)
  }

  ghost predicate Retried(e: Exporter) {
    && InRange(e.cfg)
    && |e.tries| == |e.handed|
    && (forall i | 0 <= i < |e.tries| :: e.tries[i] <= e.cfg.maxRetries + 1)
    && (forall i | 0 <= i < |e.delays| :: 0 < e.delays[i] <= MINUTE)
    && Total(e.tries) + (if e.phase.Sending? then 1 else 0) == e.retries + |e.handed|
    && (e.phase.Sending? ==> e.tries != [] && e.tries[|e.tries| - 1] == e.phase.attempt <= e.cfg.maxRetries)
  }

  ghost predicate Inv(e: Exporter) { Conserved(e) && InOrder(e) && Bounded(e) && Retried(e) }

  lemma NewOk(c: Config)
    ensures Inv(New(c))
  {
  }

  lemma ConservedStep(e: Exporter, step: Step)
    requires Conserved(e) && Bounded(e)
    ensures Conserved(Apply(e, step))
  {
    hide InRange;
  }

  lemma BoundedStep(e: Exporter, step: Step)
    requires Bounded(e)
    ensures Bounded(Apply(e, step))
  {
    hide InRange, Delay;
  }

  lemma OfferInOrder(e: Exporter, span: Span)
    requires InOrder(e) && Bounded(e)
    ensures InOrder(Offer(e, span))
  {
    hide InRange, Flatten;
    assert Waiting(Offer(e, span)) == Waiting(e) + if Offer(e, span).queue == e.queue then [] else [span];
  }

  lemma BeginSendInOrder(e: Exporter, mode: Mode)
    requires InOrder(e) && e.phase.Idle? && 1 <= |e.batch| <= e.cfg.batchSize
    ensures InOrder(BeginSend(e, mode))
  {
    hide Flatten;
    FlattenSingle(e.handed, e.batch);
    assert Flatten(e.handed + [e.batch]) + ([] + e.queue) == Flatten(e.handed) + (e.batch + e.queue);
  }

  lemma TakeInOrder(e: Exporter)
    requires InOrder(e) && Bounded(e) && e.phase.Idle? && e.queue != []
    ensures InOrder(Take(e))
  {
    hide InRange, Flatten;
    var moved := e.(batch := e.batch + [e.queue[0]], queue := e.queue[1..]);
    assert Waiting(moved) == Waiting(e) by { assert e.queue == [e.queue[0]] + e.queue[1..]; }
    if |moved.batch| >= e.cfg.batchSize {
      BeginSendInOrder(moved, e.phase.mode);
    }
  }

  lemma AnswerInOrder(e: Exporter, outcome: Outcome)
    requires InOrder(e) && e.phase.Sending? && e.tries != []
    ensures InOrder(Answer(e, outcome))
  {
    hide Flatten, Delay;
    FlattenSingle(e.delivered, e.batch);
  }

  lemma RestInOrder(e: Exporter, step: Step)
    requires InOrder(e)
    requires || step.Count? || step.DoClose? || step.SeeStop? || step.DoSettle?
             || (step.Finish? && e.phase == Idle(Draining) && e.queue == [] && e.batch == [])
    ensures InOrder(Apply(e, step))
  {
    hide Flatten;
    assert Waiting(Apply(e, step)) == Waiting(e);
  }

  lemma InOrderStep(e: Exporter, step: Step)
    requires InOrder(e) && Bounded(e)
    ensures InOrder(Apply(e, step))
  {
    match step
    case DoOffer(span) => hide InOrder, Bounded; OfferInOrder(e, span);
    case DoTake => hide InOrder, Bounded; if e.phase.Idle? && e.queue != [] { TakeInOrder(e); }
    case Tick => hide InOrder, InRange, Flatten; if e.phase == Idle(Looping) && e.batch != [] { BeginSendInOrder(e, Looping); }
    case DoAnswer(outcome) => hide InOrder, Bounded; if e.phase.Sending? && e.tries != [] { AnswerInOrder(e, outcome); }
    case Finish =>
      hide InOrder, InRange, Flatten;
      if e.phase == Idle(Draining) && e.queue == [] {
        if e.batch != [] { BeginSendInOrder(e, Final); } else { RestInOrder(e, step); }
      }
    case _ => hide InOrder, Bounded; RestInOrder(e, step);
  }

  lemma TotalUpdateLast(tries: seq<nat>, n: nat)
    requires tries != []
    ensures Total(tries[|tries| - 1 := n]) == Total(tries) - tries[|tries| - 1] + n
  {
    assert tries[|tries| - 1 := n][..|tries| - 1] == tries[..|tries| - 1];
  }

  lemma TotalAppend(tries: seq<nat>, n: nat)
    ensures Total(tries + [n]) == Total(tries) + n
  {
    assert (tries + [n])[..|tries|] == tries;
  }

  lemma RetriedStep(e: Exporter, step: Step)
    requires Retried(e) && Bounded(e)
    ensures Retried(Apply(e, step))
  {
    hide Delay, Total;
    TotalAppend(e.tries, 0);
    if e.phase.Sending? {
      TotalUpdateLast(e.tries, e.phase.attempt + 1);
      DelayIsCappedDoubling(e.cfg.retryBackoff, e.phase.attempt);
    }
  }

  /** Main result: conservation, order and the bounds hold after every step of every run. */
  lemma {:induction false} ConservationOverRuns(e: Exporter, steps: seq<Step>)
    requires Inv(e)
    ensures Inv(Run(e, steps))
    decreases |steps|
  {
    if steps != [] {
      ConservedStep(e, steps[0]);
      InOrderStep(e, steps[0]);
      BoundedStep(e, steps[0]);
      RetriedStep(e, steps[0]);
      hide Apply, Conserved, InOrder, Bounded, Retried;
      ConservationOverRuns(Apply(e, steps[0]), steps[1..]);
    }
  }

  /**
   * Main result: once the worker has stopped every accepted span was exported or failed, all were
   * handed over in order, once each, and none is accepted any more.
   */
  lemma StoppedAccountsForAll(c: Config, before: seq<Step>, after: seq<Step>)
    requires Run(New(c), before).phase.Stopped?
    ensures var e := Run(New(c), before); var e' := Run(e, after);
            && e.accepted == e.exported + e.failed == |e.enqueued|
            && e.offered == e.accepted + (e.dropped - e.failed)
            && Flatten(e.handed) == e.enqueued
            && (forall i | 0 <= i < |e.handed| :: 1 <= |e.handed[i]| <= e.cfg.batchSize)
            && (forall i | 0 <= i < |e.tries| :: e.tries[i] <= e.cfg.maxRetries + 1)
            && e'.enqueued == e.enqueued && e'.accepted == e.accepted && e'.handed == e.handed
            && e'.exported == e.exported && e'.failed == e.failed
  {
    hide Run, New, Inv;
    NewOk(c);
    ConservationOverRuns(New(c), before);
    StoppedTotals(Run(New(c), before));
    StoppedStays(Run(New(c), before), after);
  }

  lemma StoppedTotals(e: Exporter)
    requires Inv(e) && e.phase.Stopped?
    ensures e.accepted == e.exported + e.failed == |e.enqueued|
    ensures e.offered == e.accepted + (e.dropped - e.failed)
    ensures Flatten(e.handed) == e.enqueued
    ensures forall i | 0 <= i < |e.handed| :: 1 <= |e.handed[i]| <= e.cfg.batchSize
    ensures forall i | 0 <= i < |e.tries| :: e.tries[i] <= e.cfg.maxRetries + 1
  {
    hide Flatten, Total;
    assert Waiting(e) == [];
  }

  lemma {:induction false} StoppedStays(e: Exporter, steps: seq<Step>)
    requires Inv(e) && e.phase.Stopped?
    ensures var e' := Run(e, steps);
            e'.phase.Stopped? && e'.enqueued == e.enqueued && e'.accepted == e.accepted && e'.handed == e.handed
            && e'.exported == e.exported && e'.failed == e.failed
    decreases |steps|
  {
    if steps != [] {
      ConservationOverRuns(e, steps[..1]);
      assert Run(e, steps[..1]) == Apply(e, steps[0]) by { assert steps[..1][1..] == []; }
      StoppedStays(Apply(e, steps[0]), steps[1..]);
    }
  }

  // ----- what the collector acknowledged -----

  /** The batches the collector answered with success, in order. */
  function Acknowledged(e: Exporter, steps: seq<Step>): seq<seq<Span>>
    decreases |steps|
  {
    if steps == [] then []
    else AcknowledgedBy(e, steps[0]) + Acknowledged(Apply(e, steps[0]), steps[1..])
  }

  /** What one step has acknowledged. */
  function AcknowledgedBy(e: Exporter, step: Step): seq<seq<Span>> {
    if step == DoAnswer(Delivered) && e.phase.Sending? && e.tries != [] then [e.batch] else []
  }

  lemma StepDelivers(e: Exporter, step: Step)
    ensures Apply(e, step).delivered == e.delivered + AcknowledgedBy(e, step)
    ensures Apply(e, step).exported == e.exported + |Flatten(AcknowledgedBy(e, step))|
  {
    assert e.delivered + [] == e.delivered;
    assert [e.batch][1..] == [] && Flatten([e.batch]) == e.batch + Flatten<Span>([]) == e.batch;
    hide Delay, Flatten;
    assert Flatten<Span>([]) == [] by { NothingFlat(); }
  }

  lemma NothingFlat()
    ensures Flatten<Span>([]) == []
  {
  }

  /** Main result: over every run, what counts as delivered is exactly what the collector acknowledged, in that order. */
  lemma {:induction false} DeliveredIsAcknowledged(e: Exporter, steps: seq<Step>)
    ensures Run(e, steps).delivered == e.delivered + Acknowledged(e, steps)
    ensures Run(e, steps).exported == e.exported + |Flatten(Acknowledged(e, steps))|
    decreases |steps|
  {
    hide Apply, AcknowledgedBy, Flatten;
    if steps == [] {
      NothingFlat();
      assert e.delivered + [] == e.delivered;
    } else {
      var first, rest := AcknowledgedBy(e, steps[0]), Acknowledged(Apply(e, steps[0]), steps[1..]);
      StepDelivers(e, steps[0]);
      DeliveredIsAcknowledged(Apply(e, steps[0]), steps[1..]);
      assert (e.delivered + first) + rest == e.delivered + (first + rest);
      FlattenAppend(first, rest);
    }
  }

  // ----- shutdown ends -----

  predicate WorkerStep(step: Step) { !step.DoOffer? && !step.Count? && !step.DoClose? }

  function ModeRank(mode: Mode): nat { match mode case Looping => 3 case Draining => 2 case Final => 1 }

  /** An upper bound on the worker's remaining steps once the exporter is closed. */
  function Rank(e: Exporter): int {
    var r := e.cfg.maxRetries;
    |e.queue| * (r + 5) +
    match e.phase
    case Idle(mode) => (if e.batch != [] then r + 4 else 0) + ModeRank(mode)
    case Sending(mode, attempt) => r + 2 - attempt + ModeRank(mode)
    case Settling(mode, _) => 1 + ModeRank(mode)
    case Stopped => 0
  }

  lemma RankOfQueue(e: Exporter)
    requires InRange(e.cfg)
    ensures |e.queue| * (e.cfg.maxRetries + 5) >= 0
    ensures e.queue != [] ==>
              |e.queue| * (e.cfg.maxRetries + 5) == |e.queue[1..]| * (e.cfg.maxRetries + 5) + e.cfg.maxRetries + 5
  {
  }

  lemma RankFalls(e: Exporter, step: Step)
    requires Bounded(e) && Retried(e) && e.closed && WorkerStep(step)
    ensures Rank(e) >= 0 && (e.phase.Stopped? <==> Rank(e) == 0)
    ensures Apply(e, step) == e || Rank(Apply(e, step)) < Rank(e)
  {
    hide Delay, Total;
    RankOfQueue(e);
    if step.DoTake? && e.phase.Idle? && e.queue != [] {
      assert Apply(e, step).queue == e.queue[1..];
    } else {
      assert Apply(e, step).queue == e.queue;
    }
  }

  /** A step the worker can always take once the exporter is closed. */
  function NextStep(e: Exporter): Step {
    match e.phase
    case Idle(Looping) => SeeStop
    case Idle(_) => if e.queue != [] then DoTake else Finish
    case Sending(_, _) => DoAnswer(Delivered)
    case _ => DoSettle
  }

  /** Main result: after Close the worker is never stuck and stops within a bounded number of its own steps. */
  lemma ClosedWorkerProgress(e: Exporter, step: Step)
    requires Inv(e) && e.closed && WorkerStep(step)
    ensures Rank(e) >= 0 && (e.phase.Stopped? <==> Rank(e) == 0)
    ensures Apply(e, step) == e || Rank(Apply(e, step)) < Rank(e)
    ensures WorkerStep(NextStep(e)) && (Apply(e, NextStep(e)) == e <==> e.phase.Stopped?)
  {
    RankFalls(e, step);
    hide InOrder, Conserved, Delay, Rank, Total;
    assert e.queue != [] ==> |e.queue[1..]| < |e.queue|;
  }

  // ----- the exporter's fields -----

  /** The attempts at one batch, `answers` being what the collector says to each, up to the final counters. */
  function SendFrom(e: Exporter, answers: nat -> Outcome): Exporter
    requires e.phase.Sending? && e.tries != []
    decreases e.cfg.maxRetries - e.phase.attempt
  {
    var e' := Answer(e, answers(e.phase.attempt));
    if e'.phase.Settling? then Settle(e') else SendFrom(e', answers)
  }

  lemma AnswerKeeps(e: Exporter, outcome: Outcome)
    requires Inv(e) && e.phase.Sending?
    ensures Inv(Answer(e, outcome))
  {
    hide Conserved, InOrder, Bounded, Run;
    ConservationOverRuns(e, [DoAnswer(outcome)]);
    assert Run(e, [DoAnswer(outcome)]) == Answer(e, outcome) by { RunOne(e, DoAnswer(outcome)); }
  }

  lemma RunOne(e: Exporter, step: Step)
    ensures Run(e, [step]) == Apply(e, step)
  {
    assert [step][1..] == [];
  }

  lemma StepKeeps(e: Exporter, step: Step)
    requires Inv(e)
    ensures Inv(Apply(e, step))
  {
    hide Inv, Apply, Run;
    ConservationOverRuns(e, [step]);
    RunOne(e, step);
  }

  lemma AnswerFrame(e: Exporter, outcome: Outcome)
    requires e.phase.Sending? && e.tries != []
    ensures var e' := Answer(e, outcome);
            && (e'.phase.Settling? || e'.phase.Sending?) && e'.phase.mode == e.phase.mode && e'.tries != []
            && e'.batch == e.batch && SameIntake(e, e')
  {
    hide Delay;
  }

  /** Nothing entered or left the queue and nothing was accepted or handed over. */
  ghost predicate SameIntake(e: Exporter, e': Exporter) {
    && e'.queue == e.queue && e'.handed == e.handed && e'.enqueued == e.enqueued && e'.accepted == e.accepted
    && e'.closed == e.closed && e'.cfg == e.cfg && e'.uncounted == e.uncounted && e'.offered == e.offered
  }

  /** However the collector answers, sending keeps the invariant and returns the worker to its loop. */
  lemma {:induction false} SendFromKeeps(e: Exporter, answers: nat -> Outcome)
    requires Inv(e) && e.phase.Sending? && e.tries != []
    ensures var e' := SendFrom(e, answers);
            && Inv(e') && e'.phase == (if e.phase.mode.Final? then Stopped else Idle(e.phase.mode))
            && e'.batch == [] && SameIntake(e, e')
    decreases e.cfg.maxRetries - e.phase.attempt
  {
    hide Inv, Answer;
    var e' := Answer(e, answers(e.phase.attempt));
    AnswerKeeps(e, answers(e.phase.attempt));
    AnswerFrame(e, answers(e.phase.attempt));
    if e'.phase.Settling? {
      StepKeeps(e', DoSettle);
    } else {
      AnswerAttempt(e, answers(e.phase.attempt));
      SendFromKeeps(e', answers);
    }
  }

  lemma AnswerAttempt(e: Exporter, outcome: Outcome)
    requires e.phase.Sending? && e.tries != [] && Answer(e, outcome).phase.Sending?
    ensures Answer(e, outcome).phase.attempt == e.phase.attempt + 1 <= e.cfg.maxRetries && Answer(e, outcome).cfg == e.cfg
  {
    hide Delay;
  }

  lemma SendFromStep(e: Exporter, answers: nat -> Outcome)
    requires e.phase.Sending? && e.tries != []
    ensures var e' := Answer(e, answers(e.phase.attempt));
            SendFrom(e, answers) == if e'.phase.Settling? then Settle(e') else SendFrom(e', answers)
  {
  }

  /** The attempt that ends a batch: the first answer that is not retryable, or the last attempt allowed. */
  function LastAttempt(answers: nat -> Outcome, from: nat, maxRetries: int): (k: nat)
    ensures from <= k && (k <= maxRetries || k == from)
    ensures forall j | from <= j < k :: answers(j) == Retryable
    ensures k >= maxRetries || answers(k) != Retryable
    decreases maxRetries - from
  {
    if from >= maxRetries || answers(from) != Retryable then from else LastAttempt(answers, from + 1, maxRetries)
  }

  /**
   * Main result about one batch: it is tried until an answer that is not retryable or the attempts
   * are used up, and it is delivered exactly when that last answer was success; otherwise it counts
   * as failed and dropped.
   */
  lemma {:induction false} SendOutcome(e: Exporter, answers: nat -> Outcome)
    requires e.phase.Sending? && e.tries != []
    ensures var e', k := SendFrom(e, answers), LastAttempt(answers, e.phase.attempt, e.cfg.maxRetries);
            var ok := answers(k) == Delivered;
            && e'.tries == e.tries[|e.tries| - 1 := k + 1]
            && e'.retries == e.retries + (k - e.phase.attempt)
            && e'.delivered == (if ok then e.delivered + [e.batch] else e.delivered)
            && e'.exported == (if ok then e.exported + |e.batch| else e.exported)
            && e'.batches == (if ok then e.batches + 1 else e.batches)
            && e'.failed == (if ok then e.failed else e.failed + |e.batch|)
            && e'.dropped == (if ok then e.dropped else e.dropped + |e.batch|)
            && e'.batch == [] && e'.queue == e.queue && e'.handed == e.handed
    decreases e.cfg.maxRetries - e.phase.attempt
  {
    AnswerEffect(e, answers(e.phase.attempt));
    hide Delay;
    var e' := Answer(e, answers(e.phase.attempt));
    if e'.phase.Sending? {
      SendOutcome(e', answers);
      var k := LastAttempt(answers, e'.phase.attempt, e.cfg.maxRetries);
      assert e'.tries[|e'.tries| - 1 := k + 1] == e.tries[|e.tries| - 1 := k + 1];
    }
  }

  class AsyncExporter {
    const cfg: Config
    var queue: seq<Span>
    var batch: seq<Span>
    var closed: bool
    var accepted: nat
    var exported: nat
    var dropped: nat
    var failed: nat
    var retries: nat
    var batches: nat
    ghost var phase: Phase
    ghost var offered: nat
    ghost var enqueued: seq<Span>
    ghost var handed: seq<seq<Span>>
    ghost var delivered: seq<seq<Span>>
    ghost var tries: seq<nat>
    ghost var delays: seq<int>

    ghost function State(): Exporter
      reads this
    {
      Exporter(cfg, queue, batch, phase, closed, 0, accepted, exported, dropped, failed, retries, batches,
               offered, enqueued, handed, delivered, tries, delays)
    }

    constructor (c: Config)
      ensures State() == New(c) && Inv(State())
    {
      cfg := Clamp(c);
      queue, batch, closed := [], [], false;
      accepted, exported, dropped, failed, retries, batches := 0, 0, 0, 0, 0, 0;
      phase, offered, enqueued, handed, delivered, tries, delays := Idle(Looping), 0, [], [], [], [], [];
    }

    /** Never waits: the span is queued and counted, or dropped and counted. */
    method Export(span: Span)
      requires Inv(State())
      modifies this
      ensures State() == Run(old(State()), [DoOffer(span), Count])
      ensures Inv(State())
    {
      ghost var before := State();
      offered := offered + 1;
      if closed || |queue| >= cfg.queueSize {
        dropped := dropped + 1;
      } else {
        queue, enqueued := queue + [span], enqueued + [span];
        accepted := accepted + 1;
      }
      assert State() == Apply(Apply(before, DoOffer(span)), Count);
      assert [DoOffer(span), Count][1..] == [Count];
      RunOne(Apply(before, DoOffer(span)), Count);
      ConservationOverRuns(before, [DoOffer(span), Count]);
    }

    method Close()
      requires Inv(State())
      modifies this`closed
      ensures State() == Apply(old(State()), DoClose) && closed
      ensures Inv(State())
    {
      StepKeeps(State(), DoClose);
      closed := true;
    }

    /** The counters and the state change that follow one answer of the collector. */
    method Record(outcome: Outcome, attempt: nat) returns (finished: Option<bool>)
      requires phase.Sending? && phase.attempt == attempt && tries != []
      modifies this`exported, this`failed, this`retries, this`phase, this`delivered, this`tries, this`delays
      ensures State() == Answer(old(State()), outcome)
      ensures finished == if phase.Settling? then Some(phase.ok) else None
    {
      hide Delay;
      tries := tries[|tries| - 1 := attempt + 1];
      if outcome.Delivered? {
        exported, delivered := exported + |batch|, delivered + [batch];
        phase := Settling(phase.mode, true);
        return Some(true);
      }
      if attempt >= cfg.maxRetries || outcome.Permanent? {
        failed := failed + |batch|;
        phase := Settling(phase.mode, false);
        return Some(false);
      }
      retries, delays := retries + 1, delays + [Delay(cfg.retryBackoff, attempt)];
      phase := Sending(phase.mode, attempt + 1);
      return None;
    }

    /** Hand the batch over until it is delivered or given up, then reuse the buffer. */
    method Send(answers: nat -> Outcome)
      requires phase.Sending? && phase.attempt == 0 && tries != []
      modifies this`batch, this`exported, this`dropped, this`failed, this`retries, this`batches, this`phase, this`delivered, this`tries, this`delays
      ensures State() == SendFrom(old(State()), answers)
    {
      hide SendFrom, Answer;
      var attempt := 0;
      while true
        invariant phase.Sending? && phase.attempt == attempt && tries != []
        invariant SendFrom(State(), answers) == SendFrom(old(State()), answers)
        decreases cfg.maxRetries - attempt
      {
        SendFromStep(State(), answers);
        AnswerFrame(State(), answers(attempt));
        if Answer(State(), answers(attempt)).phase.Sending? { AnswerAttempt(State(), answers(attempt)); }
        var finished := Record(answers(attempt), attempt);
        if finished.Some? {
          if finished.value { batches := batches + 1; } else { dropped := dropped + |batch|; }
          batch, phase := [], if phase.mode.Final? then Stopped else Idle(phase.mode);
          return;
        }
        attempt := attempt + 1;
      }
    }

    /**
     * The worker after Close: empty the queue in batches, flush what is left and stop. `answers`
     * gives the collector's answer to each attempt at each batch, counted from the close.
     */
    method Drain(answers: (nat, nat) -> Outcome)
      requires Inv(State()) && phase == Idle(Draining)
      modifies this
      ensures Inv(State()) && phase == Stopped
      ensures enqueued == old(enqueued) == Flatten(handed) && accepted == old(accepted) == exported + failed
      ensures old(handed) <= handed
    {
      hide Inv, SendFrom;
      var sent: nat := 0;
      while queue != []
        invariant Inv(State()) && phase == Idle(Draining)
        invariant enqueued == old(enqueued) && accepted == old(accepted) && old(handed) <= handed
        decreases |queue|
      {
        StepKeeps(State(), DoTake);
        ghost var taken := Apply(State(), DoTake);
        batch, queue := batch + [queue[0]], queue[1..];
        if |batch| >= cfg.batchSize {
          phase, handed, tries := Sending(Draining, 0), handed + [batch], tries + [0];
          assert State() == taken;
          SendFromKeeps(State(), (attempt: nat) => answers(sent, attempt));
          Send((attempt: nat) => answers(sent, attempt));
          sent := sent + 1;
        } else {
          assert State() == taken;
        }
      }
      StepKeeps(State(), Finish);
      ghost var finishing := Apply(State(), Finish);
      if batch != [] {
        phase, handed, tries := Sending(Final, 0), handed + [batch], tries + [0];
        assert State() == finishing;
        SendFromKeeps(State(), (attempt: nat) => answers(sent, attempt));
        Send((attempt: nat) => answers(sent, attempt));
      } else {
        phase := Stopped;
        assert State() == finishing;
      }
      StoppedTotals(State());
    }
  }
}
