/**
 * What a caller of Write can rely on when calls overlap and the loop runs (internal/clickhouse/writer.go): which drops it
 * is told of, and in which order its events reach ClickHouse.
 */
module WriterCalls {
  import opened WriteBehind
  import opened Sharding

  lemma RunSnoc(steps: seq<Step>, step: Step, bufSize: nat)
    ensures var w := Run(steps, bufSize);
            Run(steps + [step], bufSize) == if Enabled(w, step, bufSize) then Next(w, step, bufSize) else w
  {
    assert (steps + [step])[..|steps|] == steps;
  }

  // ---------------------------------------------------------------- runs with limited callers

  /** Before this step, fewer than `c` calls are in progress when another begins, and it has at most `k` events. */
  predicate Allowed(w: World, step: Step, c: nat, k: nat) {
    step.BeginWrite? ==> |w.producers| < c && |step.events| <= k
  }

  /** Every step could be taken, at most `c` calls overlap, and each has at most `k` events. The loop moves freely. */
  ghost predicate Permitted(steps: seq<Step>, c: nat, k: nat, bufSize: nat) {
    steps == [] ||
    var front, step := steps[..|steps| - 1], steps[|steps| - 1];
    Permitted(front, c, k, bufSize) && Enabled(Run(front, bufSize), step, bufSize) && Allowed(Run(front, bufSize), step, c, k)
  }

  lemma PermittedSnoc(steps: seq<Step>, step: Step, c: nat, k: nat, bufSize: nat)
    requires Permitted(steps, c, k, bufSize)
    requires Enabled(Run(steps, bufSize), step, bufSize) && Allowed(Run(steps, bufSize), step, c, k)
    ensures Permitted(steps + [step], c, k, bufSize)
    ensures Run(steps + [step], bufSize) == Next(Run(steps, bufSize), step, bufSize)
  {
    RunSnoc(steps, step, bufSize);
    assert (steps + [step])[..|steps|] == steps;
    hide Run, Enabled, Next;
  }

  /** The next event of this call will be dropped, and the call will return no error. */
  predicate SilentDrop(w: World, p: nat, bufSize: nat) {
    && p in w.producers && !w.producers[p].uncounted && w.producers[p].todo != []
    && |w.ch| >= bufSize && w.producers[p].seen.gauge < SoftLimit(bufSize)
  }

  ghost predicate NeverSilent(c: nat, k: nat, bufSize: nat) {
    forall steps, p :: Permitted(steps, c, k, bufSize) ==> !SilentDrop(Run(steps, bufSize), p, bufSize)
  }

  // ---------------------------------------------------------------- calls that take turns

  ghost predicate CallsLimited(producers: map<nat, Producer>, c: nat, k: nat) {
    |producers| <= c && forall p :: p in producers ==> |producers[p].todo| <= k
  }

  lemma UpdateLimited(producers: map<nat, Producer>, p: nat, v: Producer, c: nat, k: nat)
    requires CallsLimited(producers, c, k)
    requires if p in producers then |v.todo| <= |producers[p].todo| else |v.todo| <= k && |producers| < c
    ensures CallsLimited(producers[p := v], c, k)
  {
    assert producers[p := v].Keys == producers.Keys + {p};
  }

  lemma RemoveLimited(producers: map<nat, Producer>, p: nat, c: nat, k: nat)
    requires CallsLimited(producers, c, k)
    ensures CallsLimited(producers - {p}, c, k)
  {
    SubsetCount((producers - {p}).Keys, producers.Keys);
  }

  lemma StepKeepsLimits(w: World, step: Step, c: nat, k: nat, bufSize: nat)
    requires CallsLimited(w.producers, c, k) && Enabled(w, step, bufSize) && Allowed(w, step, c, k)
    ensures CallsLimited(Next(w, step, bufSize).producers, c, k)
  {
    hide CallsLimited;
    var t := Next(w, step, bufSize);
    if step.EndWrite? {
      RemoveLimited(w.producers, step.p, c, k);
    } else if IsProducerStep(step) {
      UpdateLimited(w.producers, step.p, t.producers[step.p], c, k);
    }
  }

  lemma {:induction false} RunKeepsLimits(steps: seq<Step>, c: nat, k: nat, bufSize: nat)
    requires Permitted(steps, c, k, bufSize)
    ensures CallsLimited(Run(steps, bufSize).producers, c, k)
  {
    if steps != [] {
      var front, step := steps[..|steps| - 1], steps[|steps| - 1];
      RunKeepsLimits(front, c, k, bufSize);
      StepKeepsLimits(Run(front, bufSize), step, c, k, bufSize);
    }
  }

  /** The call in progress cannot find the channel fuller than it read, except by its own events. */
  ghost predicate OnTurn(w: World, k: nat) {
    forall p :: p in w.producers ==>
      0 <= w.producers[p].seen.gauge && |w.ch| + |w.producers[p].todo| <= w.producers[p].seen.gauge + k
  }

  lemma QuietGauge(w: World)
    requires Gauged(w) && |w.producers| == 0
    ensures w.pending == |w.ch| + |InHand(w.phase)|
  {
    assert Uncounted(w.producers) == {};
  }

  lemma AloneInTurn(producers: map<nat, Producer>, p: nat, q: nat)
    requires |producers| <= 1 && p in producers && q in producers
    ensures p == q
  {
    if p != q {
      SubsetCount({p, q}, producers.Keys);
    }
  }

  lemma BeginKeepsTurn(w: World, p: nat, events: seq<Event>, k: nat, bufSize: nat)
    requires Gauged(w) && |w.producers| == 0 && |events| <= k && Enabled(w, BeginWrite(p, events), bufSize)
    ensures OnTurn(Next(w, BeginWrite(p, events), bufSize), k)
  {
    QuietGauge(w);
    assert w.producers == map[];
    hide Gauged;
  }

  lemma CallKeepsTurn(w: World, step: Step, k: nat, bufSize: nat)
    requires OnTurn(w, k) && |w.producers| <= 1 && Enabled(w, step, bufSize) && (step.Offer? || step.Count? || step.EndWrite?)
    ensures OnTurn(Next(w, step, bufSize), k)
  {
    forall q | q in w.producers ensures q == step.p {
      AloneInTurn(w.producers, step.p, q);
    }
  }

  lemma StepKeepsTurn(w: World, step: Step, k: nat, bufSize: nat)
    requires OnTurn(w, k) && CallsLimited(w.producers, 1, k) && Gauged(w) && Enabled(w, step, bufSize) && Allowed(w, step, 1, k)
    ensures OnTurn(Next(w, step, bufSize), k)
  {
    if step.BeginWrite? {
      BeginKeepsTurn(w, step.p, step.events, k, bufSize);
    } else if IsProducerStep(step) {
      CallKeepsTurn(w, step, k, bufSize);
    } else {
      LoopKeepsTurn(w, step, k, bufSize);
    }
  }

  lemma LoopKeepsTurn(w: World, step: Step, k: nat, bufSize: nat)
    requires OnTurn(w, k) && Enabled(w, step, bufSize) && !IsProducerStep(step)
    ensures OnTurn(Next(w, step, bufSize), k)
  {
    assert Next(w, step, bufSize).producers == w.producers && |Next(w, step, bufSize).ch| <= |w.ch|;
    hide Next, Enabled;
  }

  lemma {:induction false} TurnsKeepTurn(steps: seq<Step>, k: nat, bufSize: nat)
    requires bufSize >= 1 && Permitted(steps, 1, k, bufSize)
    ensures OnTurn(Run(steps, bufSize), k)
  {
    if steps != [] {
      var front, step := steps[..|steps| - 1], steps[|steps| - 1];
      TurnsKeepTurn(front, k, bufSize);
      RunKeepsLimits(front, 1, k, bufSize);
      RunKeepsInv(front, bufSize);
      StepKeepsTurn(Run(front, bufSize), step, k, bufSize);
    }
  }

  // ---------------------------------------------------------------- runs that drop silently

  /** One call with one event that nothing interleaves with, while there is room. */
  function Single(w: World, e: Event, bufSize: nat): World {
    w.(ch := w.ch + [e], pending := w.pending + 1, accepted := w.accepted + [e], offered := w.offered + [e],
       answers := w.answers + [Answer(Reading(w.pending, |w.ch| + |InHand(w.phase)|, |w.producers|), w.pending >= SoftLimit(bufSize))])
  }

  predicate Open(w: World) {
    !w.closed && w.ticking
  }

  lemma SingleBegins(w: World, p: nat, e: Event, bufSize: nat) returns (w1: World, w2: World)
    requires Open(w) && p !in w.producers && |w.ch| < bufSize
    ensures Enabled(w, BeginWrite(p, [e]), bufSize) && w1 == Next(w, BeginWrite(p, [e]), bufSize)
    ensures Enabled(w1, Offer(p), bufSize) && w2 == Next(w1, Offer(p), bufSize)
    ensures var seen := Reading(w.pending, |w.ch| + |InHand(w.phase)|, |w.producers|);
            w2 == w.(ch := w.ch + [e], accepted := w.accepted + [e], offered := w.offered + [e],
                     producers := w.producers[p := Producer([], true, seen)])
  {
    w1 := Next(w, BeginWrite(p, [e]), bufSize);
    w2 := Next(w1, Offer(p), bufSize);
    assert [e][1..] == [];
  }

  lemma SingleEnds(w: World, w2: World, p: nat, e: Event, bufSize: nat) returns (w3: World)
    requires p !in w.producers
    requires var seen := Reading(w.pending, |w.ch| + |InHand(w.phase)|, |w.producers|);
             w2 == w.(ch := w.ch + [e], accepted := w.accepted + [e], offered := w.offered + [e],
                      producers := w.producers[p := Producer([], true, seen)])
    ensures Enabled(w2, Count(p), bufSize) && w3 == Next(w2, Count(p), bufSize)
    ensures Enabled(w3, EndWrite(p), bufSize) && Next(w3, EndWrite(p), bufSize) == Single(w, e, bufSize)
  {
    w3 := Next(w2, Count(p), bufSize);
    assert w3.producers - {p} == w.producers;
  }

  lemma AppendSingle(steps: seq<Step>, p: nat, e: Event, c: nat, k: nat, bufSize: nat) returns (more: seq<Step>)
    requires Permitted(steps, c, k, bufSize) && k >= 1
    requires var w := Run(steps, bufSize); Open(w) && p !in w.producers && |w.producers| < c && |w.ch| < bufSize
    ensures Permitted(more, c, k, bufSize) && Run(more, bufSize) == Single(Run(steps, bufSize), e, bufSize)
  {
    hide Run, Enabled, Next, Permitted, Single;
    var w := Run(steps, bufSize);
    var w1, w2 := SingleBegins(w, p, e, bufSize);
    var w3 := SingleEnds(w, w2, p, e, bufSize);
    PermittedSnoc(steps, BeginWrite(p, [e]), c, k, bufSize);
    PermittedSnoc(steps + [BeginWrite(p, [e])], Offer(p), c, k, bufSize);
    PermittedSnoc(steps + [BeginWrite(p, [e])] + [Offer(p)], Count(p), c, k, bufSize);
    PermittedSnoc(steps + [BeginWrite(p, [e])] + [Offer(p)] + [Count(p)], EndWrite(p), c, k, bufSize);
    more := steps + [BeginWrite(p, [e])] + [Offer(p)] + [Count(p)] + [EndWrite(p)];
  }

  /** Single calls of goroutine `p` fill the channel to `n` events while the loop rests. */
  lemma {:induction false} FillUp(steps: seq<Step>, p: nat, e: Event, n: nat, c: nat, k: nat, bufSize: nat)
    returns (more: seq<Step>)
    requires Permitted(steps, c, k, bufSize) && k >= 1
    requires var w := Run(steps, bufSize); Open(w) && p !in w.producers && |w.producers| < c && |w.ch| <= n <= bufSize
    ensures Permitted(more, c, k, bufSize)
    ensures var w, z := Run(steps, bufSize), Run(more, bufSize);
            && Open(z) && z.producers == w.producers && z.phase == w.phase && z.dropped == w.dropped
            && |z.ch| == n && z.pending == w.pending + n - |w.ch|
    decreases n - |Run(steps, bufSize).ch|
  {
    hide Permitted;
    more := steps;
    if |Run(steps, bufSize).ch| < n {
      hide Run;
      more := AppendSingle(steps, p, e, c, k, bufSize);
      more := FillUp(more, p, e, n, c, k, bufSize);
    }
  }

  lemma OfferOne(w: World, p: nat, bufSize: nat) returns (w1: World)
    requires p in w.producers && !w.producers[p].uncounted && w.producers[p].todo != [] && |w.ch| < bufSize
    ensures Enabled(w, Offer(p), bufSize) && w1 == Next(w, Offer(p), bufSize) && Enabled(w1, Count(p), bufSize)
    ensures var z := Next(w1, Count(p), bufSize);
            && p in z.producers && !z.producers[p].uncounted && z.producers[p].todo == w.producers[p].todo[1..]
            && z.producers[p].seen == w.producers[p].seen && |z.ch| == |w.ch| + 1
  {
    w1 := Next(w, Offer(p), bufSize);
  }

  /** A call with more events than there is room runs into the full channel. */
  lemma {:induction false} OfferUntilFull(steps: seq<Step>, p: nat, c: nat, k: nat, bufSize: nat) returns (more: seq<Step>)
    requires Permitted(steps, c, k, bufSize)
    requires var w := Run(steps, bufSize);
             && p in w.producers && !w.producers[p].uncounted && w.producers[p].seen.gauge < SoftLimit(bufSize)
             && |w.ch| <= bufSize < |w.ch| + |w.producers[p].todo|
    ensures Permitted(more, c, k, bufSize) && SilentDrop(Run(more, bufSize), p, bufSize)
    decreases bufSize - |Run(steps, bufSize).ch|
  {
    hide Permitted, Next, Enabled, SoftLimit;
    more := steps;
    var w := Run(steps, bufSize);
    if |w.ch| < bufSize {
      hide Run;
      var w1 := OfferOne(w, p, bufSize);
      PermittedSnoc(steps, Offer(p), c, k, bufSize);
      PermittedSnoc(steps + [Offer(p)], Count(p), c, k, bufSize);
      more := OfferUntilFull(steps + [Offer(p)] + [Count(p)], p, c, k, bufSize);
    }
  }

  /** A call of Write that has just begun. */
  function Begun(w: World, p: nat, events: seq<Event>): World {
    w.(producers := w.producers[p := Producer(events, false, Reading(w.pending, |w.ch| + |InHand(w.phase)|, |w.producers|))])
  }

  lemma BeginStep(w: World, p: nat, events: seq<Event>, c: nat, k: nat, bufSize: nat)
    requires Open(w) && p !in w.producers && |w.producers| < c && |events| <= k
    ensures var step := BeginWrite(p, events);
            Allowed(w, step, c, k) && Enabled(w, step, bufSize) && Next(w, step, bufSize) == Begun(w, p, events)
  {
  }

  lemma Begins(steps: seq<Step>, p: nat, events: seq<Event>, c: nat, k: nat, bufSize: nat)
    requires Permitted(steps, c, k, bufSize)
    requires var w := Run(steps, bufSize); Open(w) && p !in w.producers && |w.producers| < c && |events| <= k
    ensures Permitted(steps + [BeginWrite(p, events)], c, k, bufSize)
    ensures Run(steps + [BeginWrite(p, events)], bufSize) == Begun(Run(steps, bufSize), p, events)
  {
    hide Run, Permitted, Enabled, Allowed, Next, Begun;
    BeginStep(Run(steps, bufSize), p, events, c, k, bufSize);
    PermittedSnoc(steps, BeginWrite(p, events), c, k, bufSize);
  }

  lemma StartsPermitted(c: nat, k: nat, bufSize: nat)
    ensures Permitted([], c, k, bufSize) && Run([], bufSize) == START
  {
  }

  /** Calls that take turns, the last of them too large. */
  lemma LargeCallDropsSilently(e: Event, k: nat, bufSize: nat) returns (steps: seq<Step>)
    requires SoftLimit(bufSize) >= 1 && k > bufSize - SoftLimit(bufSize) + 1
    ensures Permitted(steps, 1, k, bufSize) && SilentDrop(Run(steps, bufSize), 0, bufSize)
  {
    hide Run, Permitted, SilentDrop;
    StartsPermitted(1, k, bufSize);
    steps := FillUp([], 0, e, SoftLimit(bufSize) - 1, 1, k, bufSize);
    var events := seq(k, _ => e);
    Begins(steps, 0, events, 1, k, bufSize);
    steps := OfferUntilFull(steps + [BeginWrite(0, events)], 0, 1, k, bufSize);
  }

  /** A call begins, and before it offers its one event another goroutine's calls of one event fill the channel. */
  lemma OverlapDropsSilently(e: Event, bufSize: nat) returns (steps: seq<Step>)
    requires SoftLimit(bufSize) >= 1
    ensures Permitted(steps, 2, 1, bufSize) && SilentDrop(Run(steps, bufSize), 0, bufSize)
    ensures var w := Run(steps, bufSize);
            w.producers == map[0 := Producer([e], false, Reading(0, 0, 0))] && w.dropped == [] && |w.ch| == bufSize
  {
    hide Run, Permitted;
    StartsPermitted(2, 1, bufSize);
    Begins([], 0, [e], 2, 1, bufSize);
    var begun := [] + [BeginWrite(0, [e])];
    assert Run(begun, bufSize).producers == map[0 := Producer([e], false, Reading(0, 0, 0))];
    hide Begun;
    steps := FillUp(begun, 1, e, bufSize, 2, 1, bufSize);
  }

  /** The event is lost and its caller, who saw an empty buffer, gets no error. */
  lemma OverlapLosesEvent(e: Event, bufSize: nat) returns (steps: seq<Step>)
    requires SoftLimit(bufSize) >= 1
    ensures Permitted(steps, 2, 1, bufSize)
    ensures var w := Run(steps, bufSize);
            w.dropped == [e] && w.answers != [] && w.answers[|w.answers| - 1] == Answer(Reading(0, 0, 0), false)
  {
    var before := OverlapDropsSilently(e, bufSize);
    hide Run, Permitted, Allowed;
    PermittedEither(Run(before, bufSize), 0, 2, 1);
    PermittedSnoc(before, Offer(0), 2, 1, bufSize);
    PermittedEither(Run(before + [Offer(0)], bufSize), 0, 2, 1);
    assert [e][1..] == [];
    PermittedSnoc(before + [Offer(0)], EndWrite(0), 2, 1, bufSize);
    steps := before + [Offer(0)] + [EndWrite(0)];
  }

  lemma PermittedEither(w: World, p: nat, c: nat, k: nat)
    ensures Allowed(w, Offer(p), c, k) && Allowed(w, EndWrite(p), c, k)
  {
  }

  /**
   * The gauge can be below 0, and so below a soft limit of 0: goroutine 1 has sent an event and not counted it, the loop
   * has taken it, and goroutine 0 begins. The worlds after each of the first seven steps.
   */
  function Slip(e: Event, i: nat, bufSize: nat): World {
    var zero, minus := Reading(0, 0, 0), Reading(-1, 0, 1);
    var w2 := START.(accepted := [e], offered := [e], producers := map[1 := Producer([], true, zero)]);
    var w4 := w2.(pending := -1, buf := [e], phase := Draining);
    if i == 0 then START
    else if i == 1 then START.(producers := map[1 := Producer([e], false, zero)])
    else if i == 2 then w2.(ch := [e])
    else if i == 3 then w2.(phase := Received(e))
    else if i == 4 then w4
    else if i == 5 then w4.(producers := map[1 := Producer([], true, zero), 0 := Producer([e], false, minus)])
    else if i == 6 then
      w4.(pending := 0, producers := map[1 := Producer([], false, zero), 0 := Producer([e], false, minus)])
    else
      w4.(pending := 0, producers := map[0 := Producer([e], false, minus)], answers := [Answer(zero, 0 >= SoftLimit(bufSize))])
  }

  function SlipStep(e: Event, i: nat): Step {
    if i == 0 then BeginWrite(1, [e])
    else if i == 1 then Offer(1)
    else if i == 2 then Receive
    else if i == 3 then Uncount
    else if i == 4 then BeginWrite(0, [e])
    else if i == 5 then Count(1)
    else EndWrite(1)
  }

  lemma SlipNext(e: Event, i: nat, bufSize: nat)
    requires bufSize >= 1 && i < 7
    ensures var w, step := Slip(e, i, bufSize), SlipStep(e, i);
            Allowed(w, step, 2, 1) && Enabled(w, step, bufSize) && Next(w, step, bufSize) == Slip(e, i + 1, bufSize)
  {
    hide SoftLimit;
    assert [e][1..] == [];
    if i == 5 {
      var w, z := Slip(e, i, bufSize), Slip(e, i + 1, bufSize);
      assert w.producers[1 := Producer([], false, Reading(0, 0, 0))] == z.producers;
    } else if i == 6 {
      assert Slip(e, i, bufSize).producers - {1} == Slip(e, i + 1, bufSize).producers;
    }
  }

  lemma {:induction false} SlipRuns(e: Event, i: nat, bufSize: nat) returns (steps: seq<Step>)
    requires bufSize >= 1 && i <= 7
    ensures Permitted(steps, 2, 1, bufSize) && Run(steps, bufSize) == Slip(e, i, bufSize)
  {
    hide Run, Permitted, Enabled, Next, Allowed;
    if i == 0 {
      steps := [];
      StartsPermitted(2, 1, bufSize);
    } else {
      hide Slip, SlipStep;
      steps := SlipRuns(e, i - 1, bufSize);
      SlipNext(e, i - 1, bufSize);
      PermittedSnoc(steps, SlipStep(e, i - 1), 2, 1, bufSize);
      steps := steps + [SlipStep(e, i - 1)];
    }
  }

  lemma {:induction false} PermittedWider(steps: seq<Step>, c: nat, k: nat, d: nat, m: nat, bufSize: nat)
    requires Permitted(steps, c, k, bufSize) && c <= d && k <= m
    ensures Permitted(steps, d, m, bufSize)
  {
    hide Run, Enabled;
    if steps != [] {
      PermittedWider(steps[..|steps| - 1], c, k, d, m, bufSize);
    }
  }

  lemma OverlapIsNotSafe(c: nat, k: nat, bufSize: nat)
    requires bufSize >= 1 && c >= 2 && k >= 1
    ensures !NeverSilent(c, k, bufSize)
  {
    var e := Event("", 0);
    var steps;
    if SoftLimit(bufSize) >= 1 {
      steps := OverlapDropsSilently(e, bufSize);
    } else {
      steps := SlipRuns(e, 7, bufSize);
      steps := FillUp(steps, 1, e, bufSize, 2, 1, bufSize);
    }
    hide Run, Permitted;
    PermittedWider(steps, 2, 1, c, k, bufSize);
    assert SilentDrop(Run(steps, bufSize), 0, bufSize);
  }

  lemma TurnsAreSafe(c: nat, k: nat, bufSize: nat)
    requires bufSize >= 1 && c <= 1
    requires c == 0 || k == 0 || SoftLimit(bufSize) == 0 || k <= bufSize - SoftLimit(bufSize) + 1
    ensures NeverSilent(c, k, bufSize)
  {
    forall steps, p | Permitted(steps, c, k, bufSize) ensures !SilentDrop(Run(steps, bufSize), p, bufSize) {
      RunKeepsLimits(steps, c, k, bufSize);
      PermittedWider(steps, c, k, 1, k, bufSize);
      TurnsKeepTurn(steps, k, bufSize);
    }
  }

  lemma NoEventsAreSafe(c: nat, bufSize: nat)
    ensures NeverSilent(c, 0, bufSize)
  {
    forall steps, p | Permitted(steps, c, 0, bufSize) ensures !SilentDrop(Run(steps, bufSize), p, bufSize) {
      RunKeepsLimits(steps, c, 0, bufSize);
    }
  }

  /**
   * When is a caller told of every drop, whatever the loop does and however calls of at most `k` events, `c` at a time,
   * are interleaved? Exactly if they carry nothing, or take turns and are no larger than the buffer less the soft limit,
   * and one (of any size, with a soft limit of 0). As soon as two calls may overlap, one event is too many.
   */
  lemma NeverSilentIff(c: nat, k: nat, bufSize: nat)
    requires bufSize >= 1
    ensures NeverSilent(c, k, bufSize)
            <==> c == 0 || k == 0 || (c == 1 && (SoftLimit(bufSize) == 0 || k <= bufSize - SoftLimit(bufSize) + 1))
  {
    hide NeverSilent, SoftLimit;
    if k == 0 {
      NoEventsAreSafe(c, bufSize);
    } else if c >= 2 {
      OverlapIsNotSafe(c, k, bufSize);
    } else if c == 0 || SoftLimit(bufSize) == 0 || k <= bufSize - SoftLimit(bufSize) + 1 {
      TurnsAreSafe(c, k, bufSize);
    } else {
      var steps := LargeCallDropsSilently(Event("", 0), k, bufSize);
      SilentIsNotNever(steps, 0, c, k, bufSize);
    }
  }

  lemma SilentIsNotNever(steps: seq<Step>, p: nat, c: nat, k: nat, bufSize: nat)
    requires Permitted(steps, c, k, bufSize) && SilentDrop(Run(steps, bufSize), p, bufSize)
    ensures !NeverSilent(c, k, bufSize)
  {
  }

  // ---------------------------------------------------------------- which call an event came from

  /** The events of each call, in the order the calls began; the call each goroutine is in; the call of each accepted event. */
  datatype Calls = Calls(made: seq<seq<Event>>, current: map<nat, nat>, owner: seq<nat>)

  function NoteStep(t: Calls, w: World, step: Step, bufSize: nat): Calls {
    match step
    case BeginWrite(p, events) => t.(made := t.made + [events], current := t.current[p := |t.made|])
    case Offer(p) => if |w.ch| < bufSize && p in t.current then t.(owner := t.owner + [t.current[p]]) else t
    case EndWrite(p) => t.(current := t.current - {p})
    case _ => t
  }

  ghost function CallsOf(steps: seq<Step>, bufSize: nat): Calls {
    if steps == [] then Calls([], map[], [])
    else
      var front, step := steps[..|steps| - 1], steps[|steps| - 1];
      var w, t := Run(front, bufSize), CallsOf(front, bufSize);
      if Enabled(w, step, bufSize) then NoteStep(t, w, step, bufSize) else t
  }

  /** The events of call `c` among these, in order. */
  function Of(events: seq<Event>, owner: seq<nat>, c: nat): seq<Event>
    requires |owner| == |events|
  {
    if events == [] then []
    else
      var n := |events| - 1;
      var front := Of(events[..n], owner[..n], c);
      if owner[n] == c then front + [events[n]] else front
  }

  lemma OfSnoc(events: seq<Event>, owner: seq<nat>, e: Event, b: nat, c: nat)
    requires |owner| == |events|
    ensures Of(events + [e], owner + [b], c) == if b == c then Of(events, owner, c) + [e] else Of(events, owner, c)
  {
    assert (events + [e])[..|events|] == events && (owner + [b])[..|owner|] == owner;
  }

  lemma {:induction false} OfNothing(events: seq<Event>, owner: seq<nat>, c: nat)
    requires |owner| == |events| && forall i :: 0 <= i < |owner| ==> owner[i] < c
    ensures Of(events, owner, c) == []
  {
    if events != [] {
      OfNothing(events[..|events| - 1], owner[..|owner| - 1], c);
    }
  }

  /** What a call has offered so far. */
  function Offered(all: seq<Event>, todo: seq<Event>): seq<Event> {
    if |todo| <= |all| then all[..|all| - |todo|] else []
  }

  ghost predicate Numbered(t: Calls, producers: map<nat, Producer>) {
    && t.current.Keys == producers.Keys
    && (forall p :: p in t.current ==> Issued(t, t.current[p]))
    && (forall p, q :: p in t.current && q in t.current && t.current[p] == t.current[q] ==> p == q)
    && (forall i :: 0 <= i < |t.owner| ==> t.owner[i] < |t.made|)
  }

  predicate Issued(t: Calls, c: nat) {
    c < |t.made|
  }

  /** A call with `todo` left: what it got through is in order. */
  ghost predicate Underway(got: seq<Event>, all: seq<Event>, todo: seq<Event>) {
    |todo| <= |all| && all[|all| - |todo|..] == todo && IsPart(got, Offered(all, todo))
  }

  function Made(t: Calls, c: nat): seq<Event> {
    if c < |t.made| then t.made[c] else []
  }

  /** What was accepted of call `c`. */
  function Got(t: Calls, accepted: seq<Event>, c: nat): seq<Event> {
    if |t.owner| == |accepted| then Of(accepted, t.owner, c) else []
  }

  ghost predicate AllUnderway(t: Calls, accepted: seq<Event>, producers: map<nat, Producer>) {
    forall p :: p in t.current && p in producers ==>
      Underway(Got(t, accepted, t.current[p]), Made(t, t.current[p]), producers[p].todo)
  }

  ghost predicate AllInOrder(t: Calls, accepted: seq<Event>) {
    forall c: nat :: IsPart(Got(t, accepted, c), Made(t, c))
  }

  ghost predicate Tracked(t: Calls, accepted: seq<Event>, producers: map<nat, Producer>) {
    |t.owner| == |accepted| && Numbered(t, producers) && AllUnderway(t, accepted, producers) && AllInOrder(t, accepted)
  }

  lemma NewCallIsEmpty(t: Calls, accepted: seq<Event>, producers: map<nat, Producer>, events: seq<Event>)
    requires |t.owner| == |accepted| && Numbered(t, producers)
    ensures Got(t, accepted, |t.made|) == [] && Underway([], events, events) && IsPart([], events)
  {
    OfNothing(accepted, t.owner, |t.made|);
    EmptyIsPart(Offered(events, events));
    EmptyIsPart(events);
  }

  lemma BeginNumbered(t: Calls, producers: map<nat, Producer>, p: nat, v: Producer)
    requires Numbered(t, producers) && p !in producers
    ensures Numbered(t.(made := t.made + [v.todo], current := t.current[p := |t.made|]), producers[p := v])
  {
    var t' := t.(made := t.made + [v.todo], current := t.current[p := |t.made|]);
    forall q | q in t'.current ensures Issued(t', t'.current[q]) && (q != p ==> t'.current[q] != |t.made|) {
      if q != p { assert Issued(t, t.current[q]); }
    }
  }

  lemma BeginTracked(t: Calls, accepted: seq<Event>, producers: map<nat, Producer>, p: nat, v: Producer)
    requires Tracked(t, accepted, producers) && p !in producers
    ensures Tracked(t.(made := t.made + [v.todo], current := t.current[p := |t.made|]), accepted, producers[p := v])
  {
    var t' := t.(made := t.made + [v.todo], current := t.current[p := |t.made|]);
    NewCallIsEmpty(t, accepted, producers, v.todo);
    BeginNumbered(t, producers, p, v);
    hide Underway, IsPart, Of;
    forall c: nat ensures Got(t', accepted, c) == Got(t, accepted, c)
      && Made(t', c) == if c == |t.made| then v.todo else Made(t, c) {
    }
    hide Got, Made;
    forall q | q in t.current ensures q in producers && t.current[q] < |t.made| {
      assert Issued(t, t.current[q]);
    }
    hide Numbered, Issued;
  }

  lemma OfferedGrows(all: seq<Event>, todo: seq<Event>)
    requires todo != [] && |todo| <= |all| && all[|all| - |todo|..] == todo
    ensures |todo[1..]| <= |all| && all[|all| - |todo[1..]|..] == todo[1..]
    ensures Offered(all, todo[1..]) == Offered(all, todo) + [todo[0]]
    ensures Offered(all, todo[1..]) == all[..|all| - |todo| + 1]
  {
    var k := |all| - |todo|;
    assert all[k..][0] == all[k] == todo[0];
    assert all[k..][1..] == all[k + 1..];
    assert all[..k + 1] == all[..k] + [all[k]];
  }

  /** An event of this call is sent or dropped. */
  lemma OneMoreOffered(got: seq<Event>, all: seq<Event>, todo: seq<Event>)
    requires todo != [] && Underway(got, all, todo)
    ensures Underway(got, all, todo[1..]) && Underway(got + [todo[0]], all, todo[1..])
    ensures IsPart(got + [todo[0]], all)
  {
    OfferedGrows(all, todo);
    hide IsPart, Offered;
    PartSnoc(got, Offered(all, todo), todo[0]);
    PartOfPrefix(got + [todo[0]], all, |all| - |todo| + 1);
  }

  lemma {:induction false} PartOfPrefix(a: seq<Event>, b: seq<Event>, k: nat)
    requires k <= |b| && IsPart(a, b[..k])
    ensures IsPart(a, b)
  {
    if k == |b| {
      assert b[..k] == b;
    } else {
      var front := b[..|b| - 1];
      assert front[..k] == b[..k] && b == front + [b[|b| - 1]];
      PartOfPrefix(a, front, k);
      PartSnoc(a, front, b[|b| - 1]);
    }
  }

  lemma SameNumbers(t: Calls, producers: map<nat, Producer>, p: nat, v: Producer)
    requires Numbered(t, producers) && p in producers
    ensures Numbered(t, producers[p := v]) && Numbered(t.(owner := t.owner + [t.current[p]]), producers[p := v])
    ensures forall q :: q in producers && q != p ==> t.current[q] != t.current[p]
  {
    assert Issued(t, t.current[p]);
  }

  lemma GotSnoc(t: Calls, accepted: seq<Event>, e: Event, b: nat, c: nat)
    requires |t.owner| == |accepted|
    ensures Got(t.(owner := t.owner + [b]), accepted + [e], c) == if c == b then Got(t, accepted, c) + [e] else Got(t, accepted, c)
  {
    OfSnoc(accepted, t.owner, e, b, c);
  }

  lemma SendUnderway(t: Calls, accepted: seq<Event>, producers: map<nat, Producer>, p: nat, v: Producer)
    requires Tracked(t, accepted, producers) && p in producers && p in t.current
    requires producers[p].todo != [] && v.todo == producers[p].todo[1..]
    requires forall q :: q in producers && q != p ==> q in t.current && t.current[q] != t.current[p]
    ensures AllUnderway(t.(owner := t.owner + [t.current[p]]), accepted + [producers[p].todo[0]], producers[p := v])
  {
    var b, todo := t.current[p], producers[p].todo;
    var t', accepted' := t.(owner := t.owner + [b]), accepted + [todo[0]];
    hide Underway, Numbered, Got, Made, AllInOrder;
    OneMoreOffered(Got(t, accepted, b), Made(t, b), todo);
    forall q | q in t.current && q in producers[p := v]
      ensures Underway(Got(t', accepted', t.current[q]), Made(t', t.current[q]), producers[p := v][q].todo)
    {
      GotSnoc(t, accepted, todo[0], b, t.current[q]);
      SameMade(t, t', t.current[q]);
    }
  }

  lemma SendInOrder(t: Calls, accepted: seq<Event>, producers: map<nat, Producer>, p: nat)
    requires Tracked(t, accepted, producers) && p in producers && p in t.current && producers[p].todo != []
    ensures AllInOrder(t.(owner := t.owner + [t.current[p]]), accepted + [producers[p].todo[0]])
  {
    var b, todo := t.current[p], producers[p].todo;
    var t', accepted' := t.(owner := t.owner + [b]), accepted + [todo[0]];
    hide Underway, Numbered, Got, Made, IsPart;
    OneMoreOffered(Got(t, accepted, b), Made(t, b), todo);
    forall c: nat ensures IsPart(Got(t', accepted', c), Made(t', c)) {
      assert IsPart(Got(t, accepted, c), Made(t, c));
      GotSnoc(t, accepted, todo[0], b, c);
      SameMade(t, t', c);
    }
  }

  lemma SendTracked(t: Calls, accepted: seq<Event>, producers: map<nat, Producer>, p: nat, v: Producer)
    requires Tracked(t, accepted, producers) && p in producers
    requires producers[p].todo != [] && v.todo == producers[p].todo[1..]
    ensures p in t.current
    ensures Tracked(t.(owner := t.owner + [t.current[p]]), accepted + [producers[p].todo[0]], producers[p := v])
  {
    SameNumbers(t, producers, p, v);
    SendUnderway(t, accepted, producers, p, v);
    SendInOrder(t, accepted, producers, p);
    hide AllUnderway, AllInOrder, Numbered;
  }

  lemma SameMade(t: Calls, t': Calls, c: nat)
    requires t'.made == t.made
    ensures Made(t', c) == Made(t, c)
  {
  }

  lemma DropTracked(t: Calls, accepted: seq<Event>, producers: map<nat, Producer>, p: nat, v: Producer)
    requires Tracked(t, accepted, producers) && p in producers
    requires v.todo == producers[p].todo || (producers[p].todo != [] && v.todo == producers[p].todo[1..])
    ensures Tracked(t, accepted, producers[p := v])
  {
    SameNumbers(t, producers, p, v);
    hide Underway, IsPart, Numbered, Got, Made;
    if producers[p].todo != [] {
      OneMoreOffered(Got(t, accepted, t.current[p]), Made(t, t.current[p]), producers[p].todo);
    }
  }

  lemma EndTracked(t: Calls, accepted: seq<Event>, producers: map<nat, Producer>, p: nat)
    requires Tracked(t, accepted, producers)
    ensures Tracked(t.(current := t.current - {p}), accepted, producers - {p})
  {
    hide Underway, IsPart;
    var t' := t.(current := t.current - {p});
    assert t'.current.Keys == t.current.Keys - {p} && (producers - {p}).Keys == producers.Keys - {p};
    forall c: nat ensures Made(t', c) == Made(t, c) && Got(t', accepted, c) == Got(t, accepted, c) { }
    hide Got, Made;
  }

  ghost predicate RunTracked(t: Calls, w: World) {
    Tracked(t, w.accepted, w.producers)
  }

  lemma StepKeepsTrack(t: Calls, w: World, step: Step, bufSize: nat)
    requires RunTracked(t, w) && Enabled(w, step, bufSize)
    ensures RunTracked(NoteStep(t, w, step, bufSize), Next(w, step, bufSize))
  {
    var w' := Next(w, step, bufSize);
    if step.BeginWrite? {
      BeginTracked(t, w.accepted, w.producers, step.p, w'.producers[step.p]);
    } else if step.Offer? && |w.ch| < bufSize {
      SendTracked(t, w.accepted, w.producers, step.p, w'.producers[step.p]);
    } else if step.Offer? || step.Count? {
      DropTracked(t, w.accepted, w.producers, step.p, w'.producers[step.p]);
    } else if step.EndWrite? {
      EndTracked(t, w.accepted, w.producers, step.p);
    }
    hide Tracked;
  }

  lemma {:induction false} RunIsTracked(steps: seq<Step>, bufSize: nat)
    ensures RunTracked(CallsOf(steps, bufSize), Run(steps, bufSize))
  {
    if steps == [] {
      NothingTracked();
    } else {
      var front, step := steps[..|steps| - 1], steps[|steps| - 1];
      RunIsTracked(front, bufSize);
      hide RunTracked, Next, NoteStep;
      if Enabled(Run(front, bufSize), step, bufSize) {
        StepKeepsTrack(CallsOf(front, bufSize), Run(front, bufSize), step, bufSize);
      }
    }
  }

  lemma NothingTracked()
    ensures RunTracked(Calls([], map[], []), START)
  {
    EmptyIsPart([]);
  }

  /** The parts of the invariant that the results below need. */
  lemma TrackedFacts(t: Calls, w: World, c: nat)
    requires RunTracked(t, w) && c < |t.made|
    ensures |t.owner| == |w.accepted| && IsPart(Of(w.accepted, t.owner, c), t.made[c])
    ensures forall i :: 0 <= i < |t.owner| ==> t.owner[i] < |t.made|
  {
    hide IsPart, Of;
    assert IsPart(Got(t, w.accepted, c), Made(t, c));
  }

  lemma {:induction false} OfPrefix(events: seq<Event>, owner: seq<nat>, n: nat, c: nat)
    requires n <= |events| == |owner|
    ensures |Of(events[..n], owner[..n], c)| <= |Of(events, owner, c)|
    ensures Of(events[..n], owner[..n], c) == Of(events, owner, c)[..|Of(events[..n], owner[..n], c)|]
  {
    if n == |events| {
      assert events[..n] == events && owner[..n] == owner;
    } else {
      var front, bys := events[..|events| - 1], owner[..|owner| - 1];
      assert front[..n] == events[..n] && bys[..n] == owner[..n];
      OfPrefix(front, bys, n, c);
    }
  }

  /** What has been handed to doFlush of call `c`. */
  ghost function FlushedOf(steps: seq<Step>, bufSize: nat, c: nat): seq<Event>
    requires |Flat(Run(steps, bufSize).batches)| <= |CallsOf(steps, bufSize).owner|
  {
    var flat := Flat(Run(steps, bufSize).batches);
    Of(flat, CallsOf(steps, bufSize).owner[..|flat|], c)
  }

  /**
   * In every interleaving of any number of calls: every flushed event belongs to one call, and the events flushed of a
   * call are that call's events, in its order, with dropped and waiting ones left out.
   */
  lemma EachCallInOrder(steps: seq<Step>, bufSize: nat, c: nat)
    requires bufSize >= 1 && c < |CallsOf(steps, bufSize).made|
    ensures var t, flat := CallsOf(steps, bufSize), Flat(Run(steps, bufSize).batches);
            && |flat| <= |t.owner| && (forall i :: 0 <= i < |flat| ==> t.owner[i] < |t.made|)
            && IsPart(FlushedOf(steps, bufSize, c), t.made[c])
  {
    RunIsTracked(steps, bufSize);
    TrackedFacts(CallsOf(steps, bufSize), Run(steps, bufSize), c);
    FlushedInOrder(steps, bufSize);
    hide RunTracked, Run, CallsOf, IsPart, Of;
    var w, t, flat := Run(steps, bufSize), CallsOf(steps, bufSize), Flat(Run(steps, bufSize).batches);
    assert flat == w.accepted[..|flat|];
    OfPrefix(w.accepted, t.owner, |flat|, c);
    PartPrefix(Of(w.accepted, t.owner, c), t.made[c], |Of(flat, t.owner[..|flat|], c)|);
  }

  /**
   * "Preserving per-app ordering" for callers that race each other: when call `c` on the writer of shard `i` is the share
   * of `input` that the sharded writer sends there, what is flushed of it for an app is the app's part of `input`, in
   * order, with some events left out, and nothing at all unless the shard is the app's own.
   */
  lemma EachCallAppOrder(fnv: string -> nat, input: seq<Event>, n: nat, i: nat, app: string,
                         steps: seq<Step>, bufSize: nat, c: nat)
    requires n > 0 && bufSize >= 1 && c < |CallsOf(steps, bufSize).made|
    requires CallsOf(steps, bufSize).made[c] == ShardEvents(fnv, input, n, i)
    ensures |Flat(Run(steps, bufSize).batches)| <= |CallsOf(steps, bufSize).owner|
    ensures var flushed := AppEvents(FlushedOf(steps, bufSize, c), app);
            IsPart(flushed, AppEvents(input, app)) && (i != ShardFor(fnv, app, n) ==> flushed == [])
  {
    EachCallInOrder(steps, bufSize, c);
    hide Run, CallsOf, IsPart, AppEvents, ShardEvents, ShardFor, FlushedOf;
    var flushed, shard := FlushedOf(steps, bufSize, c), ShardEvents(fnv, input, n, i);
    PartOfApp(flushed, shard, app);
    AppStaysTogether(fnv, input, n, app, i);
    if i != ShardFor(fnv, app, n) {
      PartOfNothing(AppEvents(flushed, app));
      EmptyIsPart(AppEvents(input, app));
    }
  }
}
