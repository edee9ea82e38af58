/**
 * The write-behind ClickHouse writer (internal/clickhouse/writer.go) as interleaved steps: producers inside Write,
 * the ticker, the batching loop and Stop. Every channel operation and every update of `pending` is one step.
 */
module WriteBehind {
  datatype Event = Event(app: string, id: int)

  /** `int(float64(bufSize) * 0.8)`. */
  function SoftLimit(bufSize: nat): (r: nat)
    ensures 5 * r <= 4 * bufSize < 5 * (r + 1)
  {
    bufSize * 4 / 5
  }

  /** What a call of Write reads from `pending` when it begins; as history, how many events wait and calls run then. */
  datatype Reading = Reading(gauge: int, waiting: nat, others: nat)

  /** A call of Write: what it still has to offer, and whether it has sent an event it has not counted yet. */
  datatype Producer = Producer(todo: seq<Event>, uncounted: bool, seen: Reading)

  /** A call of Write that has returned. */
  datatype Answer = Answer(seen: Reading, backpressure: bool)

  datatype Phase =
    | Selecting
    | Received(e: Event)     // taken off the channel, pending not yet lowered
    | Draining
    | Drained
    | Flushing(final: bool)  // doFlush has the buffer
    | Done

  datatype Batch = Batch(events: seq<Event>, inserted: bool)

  /** `offered` and `accepted` are the history of Write: every event tried, and every event sent, in order. */
  datatype World = World(
    ch: seq<Event>, closed: bool, pending: int, dropped: seq<Event>,
    buf: seq<Event>, phase: Phase, batches: seq<Batch>,
    tick: bool, ticking: bool,
    producers: map<nat, Producer>, answers: seq<Answer>,
    offered: seq<Event>, accepted: seq<Event>)

  const START := World([], false, 0, [], [], Selecting, [], false, true, map[], [], [], [])

  datatype Step =
    | BeginWrite(p: nat, events: seq<Event>) | Offer(p: nat) | Count(p: nat) | EndWrite(p: nat)
    | Fire | StopTicker | Close
    | Receive | Uncount | DrainOne | DrainEnd | AfterDrain | Tick | SeeClosed | FlushReturns(ok: bool)

  /** When a step can be taken. No Write runs into Close: sending on a closed channel panics. */
  predicate Enabled(w: World, step: Step, bufSize: nat) {
    match step
    case BeginWrite(p, _) => p !in w.producers && !w.closed && w.ticking
    case Offer(p) => p in w.producers && !w.producers[p].uncounted && w.producers[p].todo != []
    case Count(p) => p in w.producers && w.producers[p].uncounted
    case EndWrite(p) => p in w.producers && !w.producers[p].uncounted && w.producers[p].todo == []
    case Fire => w.ticking
    case StopTicker => w.ticking && w.producers == map[]
    case Close => !w.ticking && !w.closed
    case Receive => w.phase.Selecting? && w.ch != []
    case Uncount => w.phase.Received?
    case DrainOne => w.phase.Draining? && |w.buf| < bufSize && w.ch != []
    case DrainEnd => w.phase.Draining? && (|w.buf| >= bufSize || w.ch == [])
    case AfterDrain => w.phase.Drained?
    case Tick => w.phase.Selecting? && w.tick
    case SeeClosed => w.phase.Selecting? && w.closed && w.ch == []
    case FlushReturns(_) => w.phase.Flushing?
  }

  function Next(w: World, step: Step, bufSize: nat): World
    requires Enabled(w, step, bufSize)
  {
    match step
    case BeginWrite(p, events) =>
      var seen := Reading(w.pending, |w.ch| + |InHand(w.phase)|, |w.producers|);
      w.(producers := w.producers[p := Producer(events, false, seen)])
    case Offer(p) =>
      var e, rest := w.producers[p].todo[0], w.producers[p].todo[1..];
      if |w.ch| < bufSize
      then w.(ch := w.ch + [e], accepted := w.accepted + [e], offered := w.offered + [e],
              producers := w.producers[p := w.producers[p].(todo := rest, uncounted := true)])
      else w.(dropped := w.dropped + [e], offered := w.offered + [e],
              producers := w.producers[p := w.producers[p].(todo := rest)])
    case Count(p) => w.(pending := w.pending + 1, producers := w.producers[p := w.producers[p].(uncounted := false)])
    case EndWrite(p) =>
      var seen := w.producers[p].seen;
      w.(producers := w.producers - {p}, answers := w.answers + [Answer(seen, seen.gauge >= SoftLimit(bufSize))])
    case Fire => w.(tick := true)
    case StopTicker => w.(ticking := false)
    case Close => w.(closed := true)
    case Receive => w.(ch := w.ch[1..], phase := Received(w.ch[0]))
    case Uncount => w.(pending := w.pending - 1, buf := w.buf + [w.phase.e], phase := Draining)
    case DrainOne => w.(ch := w.ch[1..], phase := Received(w.ch[0]))
    case DrainEnd => w.(phase := Drained)
    case AfterDrain => w.(phase := if |w.buf| >= bufSize then Flushing(false) else Selecting)
    case Tick => w.(tick := false, phase := if w.buf != [] then Flushing(false) else Selecting)
    case SeeClosed => w.(phase := if w.buf != [] then Flushing(true) else Done)
    case FlushReturns(ok) =>
      w.(batches := w.batches + [Batch(w.buf, ok)], buf := [], phase := if w.phase.final then Done else Selecting)
  }

  ghost function Run(steps: seq<Step>, bufSize: nat): World {
    if steps == [] then START
    else
      var w, step := Run(steps[..|steps| - 1], bufSize), steps[|steps| - 1];
      if Enabled(w, step, bufSize) then Next(w, step, bufSize) else w
  }

  // ---------------------------------------------------------------- conservation and order

  /** The event the loop holds between the channel and its buffer. */
  function InHand(phase: Phase): seq<Event> {
    if phase.Received? then [phase.e] else []
  }

  function Flat(batches: seq<Batch>): seq<Event> {
    if batches == [] then [] else Flat(batches[..|batches| - 1]) + batches[|batches| - 1].events
  }

  /** Events of the batches that were inserted, or of those that failed. */
  function FlatWhere(batches: seq<Batch>, inserted: bool): seq<Event> {
    if batches == [] then []
    else
      var b := batches[|batches| - 1];
      FlatWhere(batches[..|batches| - 1], inserted) + if b.inserted == inserted then b.events else []
  }

  ghost function Uncounted(producers: map<nat, Producer>): set<nat> {
    set p | p in producers && producers[p].uncounted
  }

  /** Accepted events pass through in channel order, and nothing is lost or doubled on the way. */
  ghost predicate Ordered(w: World) {
    Flat(w.batches) + (w.buf + (InHand(w.phase) + w.ch)) == w.accepted
  }

  ghost predicate Bounded(w: World, bufSize: nat) {
    |w.ch| <= bufSize && BufferFits(w.buf, w.phase, bufSize)
  }

  ghost predicate BufferFits(buf: seq<Event>, phase: Phase, bufSize: nat) {
    && |buf| + |InHand(phase)| <= bufSize
    && (phase.Selecting? ==> |buf| < bufSize)
    && (phase.Flushing? ==> buf != [])
  }

  ghost predicate BatchesFit(batches: seq<Batch>, bufSize: nat) {
    forall i :: 0 <= i < |batches| ==> 1 <= |batches[i].events| <= bufSize
  }

  /** The gauge is off only by the operations in flight. */
  ghost predicate Gauged(w: World) {
    w.pending == |w.ch| + |InHand(w.phase)| - |Uncounted(w.producers)|
  }

  ghost predicate Accounted(w: World) {
    multiset(w.offered) == multiset(w.accepted) + multiset(w.dropped)
  }

  ghost predicate Ending(w: World) {
    && (w.closed ==> !w.ticking)
    && (!w.ticking ==> w.producers == map[])
    && (w.phase == Flushing(true) ==> w.closed && w.ch == [])
    && (w.phase.Done? ==> w.closed && w.ch == [] && w.buf == [])
  }

  /** The gauge never counts an event that does not wait, and lags by at most one event per call in progress. */
  predicate Fair(seen: Reading) {
    seen.gauge <= seen.waiting <= seen.gauge + seen.others
  }

  ghost predicate ReadFairly(producers: map<nat, Producer>) {
    forall p :: p in producers ==> Fair(producers[p].seen)
  }

  ghost predicate AnsweredFairly(answers: seq<Answer>, bufSize: nat) {
    forall i :: 0 <= i < |answers| ==>
      Fair(answers[i].seen) && answers[i].backpressure == (answers[i].seen.gauge >= SoftLimit(bufSize))
  }

  ghost predicate FairlyAnswered(w: World, bufSize: nat) {
    ReadFairly(w.producers) && AnsweredFairly(w.answers, bufSize)
  }

  /** `a` is `b` with some events left out. */
  predicate IsPart(a: seq<Event>, b: seq<Event>)
    decreases |b|
  {
    a == [] || (b != [] && (IsPart(a, b[..|b| - 1]) || (a[|a| - 1] == b[|b| - 1] && IsPart(a[..|a| - 1], b[..|b| - 1]))))
  }

  ghost predicate KeepsOffer(w: World) {
    IsPart(w.accepted, w.offered)
  }

  ghost predicate Inv(w: World, bufSize: nat) {
    && Ordered(w) && Bounded(w, bufSize) && BatchesFit(w.batches, bufSize) && Gauged(w) && Accounted(w) && Ending(w)
    && FairlyAnswered(w, bufSize) && KeepsOffer(w)
  }

  lemma FlatSnoc(batches: seq<Batch>, b: Batch)
    ensures Flat(batches + [b]) == Flat(batches) + b.events
  {
    assert (batches + [b])[..|batches|] == batches;
  }

  lemma AppendInside(a: seq<Event>, b: seq<Event>, c: seq<Event>, d: seq<Event>, e: Event)
    ensures a + (b + (c + (d + [e]))) == a + (b + (c + d)) + [e]
  {
  }

  lemma HandOver(b: seq<Event>, e: Event, d: seq<Event>)
    ensures (b + [e]) + ([] + d) == b + ([e] + d)
  {
  }

  lemma FlushAll(a: seq<Event>, b: seq<Event>, d: seq<Event>)
    ensures (a + b) + ([] + ([] + d)) == a + (b + ([] + d))
  {
  }

  lemma StepKeepsOrder(w: World, step: Step, bufSize: nat)
    requires Ordered(w) && Enabled(w, step, bufSize)
    ensures Ordered(Next(w, step, bufSize))
  {
    hide Flat;
    match step
    case Offer(p) => AppendInside(Flat(w.batches), w.buf, InHand(w.phase), w.ch, w.producers[p].todo[0]);
    case Receive => assert [w.ch[0]] + w.ch[1..] == [] + w.ch;
    case DrainOne => assert [w.ch[0]] + w.ch[1..] == [] + w.ch;
    case Uncount => HandOver(w.buf, w.phase.e, w.ch);
    case FlushReturns(ok) =>
      FlatSnoc(w.batches, Batch(w.buf, ok));
      FlushAll(Flat(w.batches), w.buf, w.ch);
    case _ =>
  }

  lemma StepKeepsBounds(w: World, step: Step, bufSize: nat)
    requires bufSize >= 1 && Bounded(w, bufSize) && Enabled(w, step, bufSize)
    ensures Bounded(Next(w, step, bufSize), bufSize)
  {
    if IsLoopStep(step) {
      LoopStepKeepsBounds(w, step, bufSize);
    } else {
      assert Next(w, step, bufSize).buf == w.buf && Next(w, step, bufSize).phase == w.phase;
      hide BufferFits;
    }
  }

  lemma LoopStepKeepsBounds(w: World, step: Step, bufSize: nat)
    requires bufSize >= 1 && Bounded(w, bufSize) && Enabled(w, step, bufSize) && IsLoopStep(step)
    ensures Bounded(Next(w, step, bufSize), bufSize)
  {
  }

  lemma UncountedUpdate(producers: map<nat, Producer>, p: nat, v: Producer)
    ensures Uncounted(producers[p := v]) == if v.uncounted then Uncounted(producers) + {p} else Uncounted(producers) - {p}
    ensures Uncounted(producers - {p}) == Uncounted(producers) - {p}
  {
  }

  lemma StepKeepsBatches(w: World, step: Step, bufSize: nat)
    requires Bounded(w, bufSize) && BatchesFit(w.batches, bufSize) && Enabled(w, step, bufSize)
    ensures BatchesFit(Next(w, step, bufSize).batches, bufSize)
  {
  }

  predicate IsProducerStep(step: Step) {
    step.BeginWrite? || step.Offer? || step.Count? || step.EndWrite?
  }

  lemma StepKeepsGauge(w: World, step: Step, bufSize: nat)
    requires Gauged(w) && Enabled(w, step, bufSize)
    ensures Gauged(Next(w, step, bufSize))
  {
    if IsProducerStep(step) {
      ProducerKeepsGauge(w, step, bufSize);
    } else {
      hide Uncounted;
    }
  }

  lemma ProducerKeepsGauge(w: World, step: Step, bufSize: nat)
    requires Gauged(w) && Enabled(w, step, bufSize) && IsProducerStep(step)
    ensures Gauged(Next(w, step, bufSize))
  {
    hide Gauged;
    match step
    case BeginWrite(p, events) => BeginKeepsGauge(w, p, events, bufSize);
    case Offer(p) => OfferKeepsGauge(w, p, bufSize);
    case Count(p) => CountKeepsGauge(w, p, bufSize);
    case EndWrite(p) => EndKeepsGauge(w, p, bufSize);
  }

  lemma BeginKeepsGauge(w: World, p: nat, events: seq<Event>, bufSize: nat)
    requires Gauged(w) && p !in w.producers && Enabled(w, BeginWrite(p, events), bufSize)
    ensures Gauged(Next(w, BeginWrite(p, events), bufSize))
  {
    UncountedUpdate(w.producers, p, Next(w, BeginWrite(p, events), bufSize).producers[p]);
    UncountedMember(w.producers, p);
    hide Uncounted;
  }

  lemma OfferKeepsGauge(w: World, p: nat, bufSize: nat)
    requires Gauged(w) && p in w.producers && Enabled(w, Offer(p), bufSize)
    ensures Gauged(Next(w, Offer(p), bufSize))
  {
    UncountedUpdate(w.producers, p, Next(w, Offer(p), bufSize).producers[p]);
    UncountedMember(w.producers, p);
    hide Uncounted;
  }

  lemma CountKeepsGauge(w: World, p: nat, bufSize: nat)
    requires Gauged(w) && p in w.producers && Enabled(w, Count(p), bufSize)
    ensures Gauged(Next(w, Count(p), bufSize))
  {
    UncountedUpdate(w.producers, p, Next(w, Count(p), bufSize).producers[p]);
    UncountedMember(w.producers, p);
    hide Uncounted;
  }

  lemma EndKeepsGauge(w: World, p: nat, bufSize: nat)
    requires Gauged(w) && p in w.producers && Enabled(w, EndWrite(p), bufSize)
    ensures Gauged(Next(w, EndWrite(p), bufSize))
  {
    UncountedUpdate(w.producers, p, w.producers[p]);
    UncountedMember(w.producers, p);
    hide Uncounted;
  }

  lemma UncountedMember(producers: map<nat, Producer>, p: nat)
    ensures p in Uncounted(producers) <==> p in producers && producers[p].uncounted
    ensures |Uncounted(producers)| <= |producers|
  {
    SubsetCount(Uncounted(producers), producers.Keys);
  }

  lemma {:induction false} SubsetCount(a: set<nat>, b: set<nat>)
    requires a <= b
    ensures |a| <= |b|
  {
    assert b == a + (b - a);
  }

  lemma StepKeepsAnswers(w: World, step: Step, bufSize: nat)
    requires Gauged(w) && FairlyAnswered(w, bufSize) && Enabled(w, step, bufSize)
    ensures FairlyAnswered(Next(w, step, bufSize), bufSize)
  {
    hide Fair, Uncounted;
    if step.BeginWrite? {
      GaugeIsFair(w);
      ReadOneMore(w.producers, step.p, Next(w, step, bufSize).producers[step.p]);
      hide ReadFairly, AnsweredFairly;
    } else if step.EndWrite? {
      hide ReadFairly;
      EndKeepsAnswers(w, step.p, bufSize);
    } else if IsProducerStep(step) {
      ReadOneMore(w.producers, step.p, Next(w, step, bufSize).producers[step.p]);
      hide ReadFairly, AnsweredFairly;
    } else {
      hide ReadFairly, AnsweredFairly;
      assert Next(w, step, bufSize).producers == w.producers && Next(w, step, bufSize).answers == w.answers;
    }
  }

  lemma GaugeIsFair(w: World)
    requires Gauged(w)
    ensures Fair(Reading(w.pending, |w.ch| + |InHand(w.phase)|, |w.producers|))
  {
    UncountedMember(w.producers, 0);
  }

  lemma ReadOneMore(producers: map<nat, Producer>, p: nat, v: Producer)
    requires ReadFairly(producers)
    ensures Fair(v.seen) ==> ReadFairly(producers[p := v])
    ensures p in producers ==> Fair(producers[p].seen)
    ensures ReadFairly(producers - {p})
  {
    hide Fair;
  }

  lemma EndKeepsAnswers(w: World, p: nat, bufSize: nat)
    requires FairlyAnswered(w, bufSize) && p in w.producers && Enabled(w, EndWrite(p), bufSize)
    ensures FairlyAnswered(Next(w, EndWrite(p), bufSize), bufSize)
  {
    hide Fair;
    ReadOneMore(w.producers, p, w.producers[p]);
    hide ReadFairly;
  }

  lemma PartSnoc(a: seq<Event>, b: seq<Event>, e: Event)
    requires IsPart(a, b)
    ensures IsPart(a, b + [e]) && IsPart(a + [e], b + [e])
  {
    assert (a + [e])[..|a|] == a && (b + [e])[..|b|] == b;
  }

  lemma StepKeepsOffer(w: World, step: Step, bufSize: nat)
    requires KeepsOffer(w) && Enabled(w, step, bufSize)
    ensures KeepsOffer(Next(w, step, bufSize))
  {
    hide IsPart;
    if step.Offer? {
      PartSnoc(w.accepted, w.offered, w.producers[step.p].todo[0]);
    }
  }

  lemma StepKeepsAccount(w: World, step: Step, bufSize: nat)
    requires Accounted(w) && Enabled(w, step, bufSize)
    ensures Accounted(Next(w, step, bufSize))
  {
    var t := Next(w, step, bufSize);
    if step.Offer? {
      OfferKeepsAccount(w, step.p, bufSize);
    } else {
      assert t.offered == w.offered && t.accepted == w.accepted && t.dropped == w.dropped;
    }
  }

  lemma OfferKeepsAccount(w: World, p: nat, bufSize: nat)
    requires Accounted(w) && Enabled(w, Offer(p), bufSize)
    ensures Accounted(Next(w, Offer(p), bufSize))
  {
    var t, e := Next(w, Offer(p), bufSize), w.producers[p].todo[0];
    assert t.offered == w.offered + [e];
    assert if |w.ch| < bufSize then t.accepted == w.accepted + [e] && t.dropped == w.dropped
           else t.accepted == w.accepted && t.dropped == w.dropped + [e];
    hide Next;
  }

  lemma StepKeepsEnding(w: World, step: Step, bufSize: nat)
    requires Ending(w) && Bounded(w, bufSize) && Enabled(w, step, bufSize)
    ensures Ending(Next(w, step, bufSize))
  {
  }

  lemma StepKeepsInv(w: World, step: Step, bufSize: nat)
    requires bufSize >= 1 && Inv(w, bufSize) && Enabled(w, step, bufSize)
    ensures Inv(Next(w, step, bufSize), bufSize)
  {
    hide Next, Ordered, Bounded, BatchesFit, Gauged, Accounted, Ending, Enabled, FairlyAnswered, KeepsOffer;
    StepKeepsOrder(w, step, bufSize);
    StepKeepsBounds(w, step, bufSize);
    StepKeepsBatches(w, step, bufSize);
    StepKeepsGauge(w, step, bufSize);
    StepKeepsAccount(w, step, bufSize);
    StepKeepsEnding(w, step, bufSize);
    StepKeepsAnswers(w, step, bufSize);
    StepKeepsOffer(w, step, bufSize);
  }

  lemma {:induction false} RunKeepsInv(steps: seq<Step>, bufSize: nat)
    requires bufSize >= 1
    ensures Inv(Run(steps, bufSize), bufSize)
  {
    if steps == [] {
      assert Uncounted(START.producers) == {};
    } else {
      RunKeepsInv(steps[..|steps| - 1], bufSize);
      var w, step := Run(steps[..|steps| - 1], bufSize), steps[|steps| - 1];
      if Enabled(w, step, bufSize) {
        StepKeepsInv(w, step, bufSize);
      }
    }
  }

  lemma {:induction false} SplitBatches(batches: seq<Batch>)
    ensures multiset(Flat(batches)) == multiset(FlatWhere(batches, true)) + multiset(FlatWhere(batches, false))
  {
    if batches != [] {
      SplitBatches(batches[..|batches| - 1]);
    }
  }

  /**
   * Conservation, in every interleaving: every event ever offered to Write is in exactly one of inserted, failed,
   * buffer, the loop's hand, channel and dropped; and at most 2 * bufSize events are held in memory.
   */
  lemma Conservation(steps: seq<Step>, bufSize: nat)
    requires bufSize >= 1
    ensures var w := Run(steps, bufSize);
            && multiset(w.offered)
               == multiset(FlatWhere(w.batches, true)) + multiset(FlatWhere(w.batches, false))
                  + multiset(w.buf) + multiset(InHand(w.phase)) + multiset(w.ch) + multiset(w.dropped)
            && |w.ch| + |w.buf| + |InHand(w.phase)| <= 2 * bufSize
            && (forall b :: b in w.batches ==> 1 <= |b.events| <= bufSize)
  {
    var w := Run(steps, bufSize);
    RunKeepsInv(steps, bufSize);
    SplitBatches(w.batches);
    assert multiset(Flat(w.batches) + (w.buf + (InHand(w.phase) + w.ch)))
        == multiset(Flat(w.batches)) + multiset(w.buf) + multiset(InHand(w.phase)) + multiset(w.ch);
  }

  /** A batch counts as inserted or as failed by what the insert returned. */
  lemma FlushCounts(w: World, ok: bool, bufSize: nat)
    requires w.phase.Flushing?
    ensures var z := Next(w, FlushReturns(ok), bufSize);
            && FlatWhere(z.batches, true) == FlatWhere(w.batches, true) + (if ok then w.buf else [])
            && FlatWhere(z.batches, false) == FlatWhere(w.batches, false) + (if ok then [] else w.buf)
  {
    var z := Next(w, FlushReturns(ok), bufSize);
    assert z.batches == w.batches + [Batch(w.buf, ok)] && z.batches[..|w.batches|] == w.batches;
    hide Next;
  }

  /** What has been handed to doFlush is a prefix of what was accepted, in the order it was accepted. */
  lemma FlushedInOrder(steps: seq<Step>, bufSize: nat)
    requires bufSize >= 1
    ensures Flat(Run(steps, bufSize).batches) <= Run(steps, bufSize).accepted
  {
    RunKeepsInv(steps, bufSize);
  }

  /** With no call of Write in progress the gauge is what waits in the channel, plus the event in the loop's hand. */
  lemma GaugeIsExactWhenQuiet(steps: seq<Step>, bufSize: nat)
    requires bufSize >= 1 && Run(steps, bufSize).producers == map[]
    ensures var w := Run(steps, bufSize); w.pending == |w.ch| + |InHand(w.phase)|
  {
    RunKeepsInv(steps, bufSize);
    assert Uncounted(Run(steps, bufSize).producers) == {};
  }

  /**
   * What the error of Write means when calls interleave: it is never returned unless that many events waited when the
   * call began, and missed only while other calls were in progress, by at most one event for each.
   */
  lemma BackpressureMeans(steps: seq<Step>, bufSize: nat, a: Answer)
    requires bufSize >= 1 && a in Run(steps, bufSize).answers
    ensures a.backpressure ==> a.seen.waiting >= SoftLimit(bufSize)
    ensures !a.backpressure ==> a.seen.waiting < SoftLimit(bufSize) + a.seen.others
    ensures a.seen.others == 0 ==> (a.backpressure <==> a.seen.waiting >= SoftLimit(bufSize))
  {
    RunKeepsInv(steps, bufSize);
    var w := Run(steps, bufSize);
    var i :| 0 <= i < |w.answers| && w.answers[i] == a;
    assert Fair(w.answers[i].seen);
  }

  lemma {:induction false} PartDrop(a: seq<Event>, e: Event, b: seq<Event>)
    requires IsPart(a + [e], b)
    ensures IsPart(a, b)
    decreases |b|
  {
    assert (a + [e])[..|a|] == a;
    if b != [] && IsPart(a + [e], b[..|b| - 1]) {
      PartDrop(a, e, b[..|b| - 1]);
    }
  }

  lemma {:induction false} PartPrefix(a: seq<Event>, b: seq<Event>, k: nat)
    requires k <= |a| && IsPart(a, b)
    ensures IsPart(a[..k], b)
  {
    if k == |a| {
      assert a[..k] == a;
    } else {
      var front := a[..|a| - 1];
      assert a == front + [a[|a| - 1]] && front[..k] == a[..k];
      PartDrop(front, a[|a| - 1], b);
      PartPrefix(front, b, k);
    }
  }

  /** Seen from the callers: what was handed to doFlush is what was offered, in that order, with some events left out. */
  lemma FlushedKeepsOfferedOrder(steps: seq<Step>, bufSize: nat)
    requires bufSize >= 1
    ensures IsPart(Flat(Run(steps, bufSize).batches), Run(steps, bufSize).offered)
  {
    hide Run, IsPart;
    var w := Run(steps, bufSize);
    RunKeepsInv(steps, bufSize);
    FlushedInOrder(steps, bufSize);
    PartPrefix(w.accepted, w.offered, |Flat(w.batches)|);
    assert w.accepted[..|Flat(w.batches)|] == Flat(w.batches);
  }

  // ---------------------------------------------------------------- when the buffer is flushed

  /** A batch is started exactly by a tick, by a full buffer after draining, or by the closed and empty channel. */
  lemma FlushStartsIff(steps: seq<Step>, step: Step, bufSize: nat)
    requires bufSize >= 1 && Enabled(Run(steps, bufSize), step, bufSize) && !Run(steps, bufSize).phase.Flushing?
    ensures var w := Run(steps, bufSize);
            Next(w, step, bufSize).phase.Flushing?
            <==> w.buf != [] && (step.Tick? || (step.AfterDrain? && |w.buf| == bufSize) || step.SeeClosed?)
  {
    BufferBounded(steps, bufSize);
    hide Run;
    FlushStarts(Run(steps, bufSize), step, bufSize);
  }

  lemma FlushStarts(w: World, step: Step, bufSize: nat)
    requires bufSize >= 1 && Enabled(w, step, bufSize) && !w.phase.Flushing? && |w.buf| <= bufSize
    ensures Next(w, step, bufSize).phase.Flushing?
            <==> w.buf != [] && (step.Tick? || (step.AfterDrain? && |w.buf| == bufSize) || step.SeeClosed?)
  {
    if IsProducerStep(step) {
      assert Next(w, step, bufSize).phase == w.phase;
    }
  }

  /** The loop stops draining exactly when the channel is empty or the buffer full. */
  lemma DrainEndsIff(steps: seq<Step>, bufSize: nat)
    requires bufSize >= 1 && Run(steps, bufSize).phase.Draining?
    ensures var w := Run(steps, bufSize);
            && (Enabled(w, DrainEnd, bufSize) <==> w.ch == [] || |w.buf| == bufSize)
            && (Enabled(w, DrainOne, bufSize) <==> w.ch != [] && |w.buf| < bufSize)
  {
    BufferBounded(steps, bufSize);
    hide Run;
  }

  lemma BufferBounded(steps: seq<Step>, bufSize: nat)
    requires bufSize >= 1
    ensures |Run(steps, bufSize).buf| <= bufSize
  {
    RunKeepsInv(steps, bufSize);
    hide Run, Ordered, BatchesFit, Gauged, Accounted, Ending, FairlyAnswered, KeepsOffer;
  }

  ghost predicate NoLoopStep(steps: seq<Step>) {
    forall i :: 0 <= i < |steps| ==> !IsLoopStep(steps[i])
  }

  /** While doFlush runs, callers and the ticker do not touch what it was given. */
  lemma {:induction false} OthersWait(w: World, others: seq<Step>, bufSize: nat)
    requires w.phase.Flushing? && NoLoopStep(others) && AllEnabled(w, others, bufSize)
    ensures var z := Continue(w, others, bufSize); z.phase == w.phase && z.buf == w.buf && z.batches == w.batches
    decreases |others|
  {
    if others != [] {
      hide Continue, AllEnabled, NoLoopStep;
      OneOther(w, others, bufSize);
      OthersWait(Next(w, others[0], bufSize), others[1..], bufSize);
    }
  }

  lemma OneOther(w: World, others: seq<Step>, bufSize: nat)
    requires others != [] && NoLoopStep(others) && AllEnabled(w, others, bufSize)
    ensures Enabled(w, others[0], bufSize) && !IsLoopStep(others[0]) && NoLoopStep(others[1..])
    ensures AllEnabled(Next(w, others[0], bufSize), others[1..], bufSize)
    ensures Continue(w, others, bufSize) == Continue(Next(w, others[0], bufSize), others[1..], bufSize)
  {
    hide Next;
  }

  /**
   * The ticker flushes: in every run, a tick that finds events in the buffer hands exactly these to doFlush. Until it
   * returns the loop does nothing else, whatever callers and the ticker do, and then they are one batch and the buffer
   * is empty.
   */
  lemma TickFlushes(before: seq<Step>, others: seq<Step>, ok: bool, bufSize: nat)
    requires bufSize >= 1
    requires var w := Run(before, bufSize); w.phase.Selecting? && w.tick && w.buf != []
    requires Enabled(Run(before, bufSize), Tick, bufSize)
    requires NoLoopStep(others) && AllEnabled(Next(Run(before, bufSize), Tick, bufSize), others, bufSize)
    ensures var w := Run(before, bufSize);
            var z := Continue(Next(w, Tick, bufSize), others, bufSize);
            && (forall step :: IsLoopStep(step) && Enabled(z, step, bufSize) ==> step.FlushReturns?)
            && Enabled(z, FlushReturns(ok), bufSize)
            && Next(z, FlushReturns(ok), bufSize).batches == w.batches + [Batch(w.buf, ok)]
            && Next(z, FlushReturns(ok), bufSize).buf == [] && Next(z, FlushReturns(ok), bufSize).phase.Selecting?
  {
    hide Run, Continue, AllEnabled;
    OthersWait(Next(Run(before, bufSize), Tick, bufSize), others, bufSize);
  }

  /** And a pending tick can always be taken while the loop selects. */
  lemma TickIsSeen(w: World, bufSize: nat)
    ensures Enabled(w, Tick, bufSize) <==> w.phase.Selecting? && w.tick
    ensures Enabled(w, Fire, bufSize) ==> Next(w, Fire, bufSize).tick
  {
  }

  // ---------------------------------------------------------------- shutdown

  predicate IsLoopStep(step: Step) {
    step.Receive? || step.Uncount? || step.DrainOne? || step.DrainEnd? || step.AfterDrain? || step.Tick?
    || step.SeeClosed? || step.FlushReturns?
  }

  /** How much the loop still has to do once the channel is closed. */
  function Remaining(w: World): nat {
    7 * |w.ch| + (if w.tick then 2 else 0) +
    match w.phase
    case Done => 0
    case Flushing(final) => if final then 1 else 3
    case Selecting => 2
    case Drained => 4
    case Draining => 5
    case Received(_) => 6
  }

  lemma LoopStepDecreases(w: World, step: Step, bufSize: nat)
    requires w.closed && Ending(w) && IsLoopStep(step) && Enabled(w, step, bufSize)
    ensures Remaining(Next(w, step, bufSize)) < Remaining(w)
    ensures Next(w, step, bufSize).closed
  {
  }

  /** After Close only the loop can move, and it can move until it is done. */
  lemma OnlyLoopMoves(w: World, step: Step, bufSize: nat)
    requires w.closed && Ending(w)
    ensures Enabled(w, step, bufSize) ==> IsLoopStep(step)
    ensures !w.phase.Done? ==> exists s :: IsLoopStep(s) && Enabled(w, s, bufSize)
  {
    var s := match w.phase
      case Selecting => if w.ch == [] then SeeClosed else Receive
      case Received(_) => Uncount
      case Draining => if |w.buf| < bufSize && w.ch != [] then DrainOne else DrainEnd
      case Drained => AfterDrain
      case Flushing(_) => FlushReturns(true)
      case Done => Fire;
    if !w.phase.Done? {
      assert IsLoopStep(s) && Enabled(w, s, bufSize);
    }
  }

  function Continue(w: World, steps: seq<Step>, bufSize: nat): World
    decreases |steps|
  {
    if steps == [] then w
    else if Enabled(w, steps[0], bufSize) then Continue(Next(w, steps[0], bufSize), steps[1..], bufSize) else w
  }

  ghost predicate AllEnabled(w: World, steps: seq<Step>, bufSize: nat)
    decreases |steps|
  {
    steps == [] || (Enabled(w, steps[0], bufSize) && AllEnabled(Next(w, steps[0], bufSize), steps[1..], bufSize))
  }

  lemma {:induction false} ContinueBounded(w: World, steps: seq<Step>, bufSize: nat)
    requires bufSize >= 1 && Inv(w, bufSize) && w.closed && AllEnabled(w, steps, bufSize)
    ensures |steps| + Remaining(Continue(w, steps, bufSize)) <= Remaining(w)
    ensures Inv(Continue(w, steps, bufSize), bufSize) && Continue(w, steps, bufSize).closed
    ensures Continue(w, steps, bufSize).accepted == w.accepted
    decreases |steps|
  {
    if steps != [] {
      var step := steps[0];
      OnlyLoopMoves(w, step, bufSize);
      LoopStepDecreases(w, step, bufSize);
      StepKeepsInv(w, step, bufSize);
      ContinueBounded(Next(w, step, bufSize), steps[1..], bufSize);
    }
  }

  /**
   * Shutdown. From any reachable state in which the channel is closed, every continuation is finite, a continuation
   * that cannot be extended has ended the loop, and then doFlush has been handed every accepted event exactly once.
   */
  lemma StopDrainsEverything(before: seq<Step>, after: seq<Step>, bufSize: nat)
    requires bufSize >= 1 && Run(before, bufSize).closed
    requires AllEnabled(Run(before, bufSize), after, bufSize)
    ensures var w, z := Run(before, bufSize), Continue(Run(before, bufSize), after, bufSize);
            && |after| <= Remaining(w)
            && ((forall s :: !Enabled(z, s, bufSize)) <==> z.phase.Done?)
            && (z.phase.Done? ==> Flat(z.batches) == w.accepted)
  {
    hide Run, Next, Enabled, Continue, AllEnabled, Flat, Remaining;
    var w := Run(before, bufSize);
    RunKeepsInv(before, bufSize);
    ContinueBounded(w, after, bufSize);
    var z := Continue(w, after, bufSize);
    StuckIffDone(z, bufSize);
    if z.phase.Done? {
      assert Flat(z.batches) + ([] + ([] + [])) == Flat(z.batches);
    }
  }

  lemma StuckIffDone(z: World, bufSize: nat)
    requires z.closed && Ending(z)
    ensures (forall s :: !Enabled(z, s, bufSize)) <==> z.phase.Done?
  {
    OnlyLoopMoves(z, Fire, bufSize);
    forall s | z.phase.Done? ensures !Enabled(z, s, bufSize) {
      OnlyLoopMoves(z, s, bufSize);
    }
  }
}
