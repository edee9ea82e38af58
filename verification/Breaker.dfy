/**
 * The circuit breaker (internal/circuitbreaker/breaker.go). `allow` and `record` are separate atomic steps with the
 * protected call in between, so an outcome may be recorded long after the state that admitted the call.
 */
module Breaker {
  datatype State = Closed | Open | HalfOpen

  datatype Config = Config(maxFailures: int, openTimeout: int, successThreshold: int) {
    ghost predicate Valid() { maxFailures > 0 && openTimeout > 0 && successThreshold > 0 }

    function WithDefaults(): (c: Config)
      ensures c.Valid()
      ensures c.maxFailures == maxFailures || (maxFailures <= 0 && c.maxFailures == 5)
      ensures c.openTimeout == openTimeout || (openTimeout <= 0 && c.openTimeout == 30_000_000_000)
      ensures c.successThreshold == successThreshold || (successThreshold <= 0 && c.successThreshold == 2)
    {
      Config(if maxFailures <= 0 then 5 else maxFailures,
             if openTimeout <= 0 then 30_000_000_000 else openTimeout,
             if successThreshold <= 0 then 2 else successThreshold)
    }
  }

  datatype Counts = Counts(
    requests: nat, totalSuccesses: nat, totalFailures: nat, consecutiveSuccesses: nat, consecutiveFailures: nat)

  const ZERO := Counts(0, 0, 0, 0, 0)

  datatype Core = Core(state: State, counts: Counts, openAt: int)

  // ---------------------------------------------------------------- the locked sections

  function Transition(b: Core, next: State, now: int): Core {
    if b.state == next then b else Core(next, ZERO, if next == Open then now else b.openAt)
  }

  function MaybeHalfOpen(b: Core, cfg: Config, now: int): Core {
    if b.state == Open && now - b.openAt >= cfg.openTimeout then Transition(b, HalfOpen, now) else b
  }

  function AfterAllow(b: Core, cfg: Config, now: int): (Core, bool) {
    var b' := MaybeHalfOpen(b, cfg, now);
    (b', b'.state == Closed || (b'.state == HalfOpen && b'.counts.requests == 0))
  }

  function Tick(c: Counts, success: bool): Counts {
    if success then Counts(c.requests + 1, c.totalSuccesses + 1, c.totalFailures, c.consecutiveSuccesses + 1, 0)
    else Counts(c.requests + 1, c.totalSuccesses, c.totalFailures + 1, 0, c.consecutiveFailures + 1)
  }

  function AfterRecord(b: Core, cfg: Config, success: bool, now: int): Core {
    var b' := b.(counts := Tick(b.counts, success));
    match b.state
    case Closed => if !success && b'.counts.consecutiveFailures >= cfg.maxFailures then Transition(b', Open, now) else b'
    case HalfOpen =>
      if !success then Transition(b', Open, now)
      else if b'.counts.consecutiveSuccesses >= cfg.successThreshold then Transition(b', Closed, now)
      else b'
    case Open => b'
  }

  // ---------------------------------------------------------------- the breaker object

  class CircuitBreaker {
    const cfg: Config
    var state: State
    var counts: Counts
    var openAt: int

    ghost function Snapshot(): Core
      reads this
    {
      Core(state, counts, openAt)
    }

    constructor (cfg: Config)
      ensures this.cfg == cfg.WithDefaults() && state == Closed && counts == ZERO
    {
      this.cfg := cfg.WithDefaults();
      state, counts := Closed, ZERO;
    }

    method TransitionTo(next: State, now: int)
      modifies this
      ensures Snapshot() == Transition(old(Snapshot()), next, now)
    {
      if state == next {
        return;
      }
      state := next;
      counts := ZERO;
      if next == Open {
        openAt := now;
      }
    }

    method MaybeTransitionToHalfOpen(now: int)
      modifies this
      ensures Snapshot() == MaybeHalfOpen(old(Snapshot()), cfg, now)
    {
      if state == Open && now - openAt >= cfg.openTimeout {
        TransitionTo(HalfOpen, now);
      }
    }

    method Allow(now: int) returns (admitted: bool)
      modifies this
      ensures (Snapshot(), admitted) == AfterAllow(old(Snapshot()), cfg, now)
    {
      MaybeTransitionToHalfOpen(now);
      match state
      case Closed => return true;
      case HalfOpen => return counts.requests == 0;
      case Open => return false;
    }

    method Record(success: bool, now: int)
      modifies this
      ensures Snapshot() == AfterRecord(old(Snapshot()), cfg, success, now)
    {
      counts := counts.(requests := counts.requests + 1);
      if !success {
        counts := counts.(totalFailures := counts.totalFailures + 1, consecutiveFailures := counts.consecutiveFailures + 1,
                          consecutiveSuccesses := 0);
        match state {
          case Closed =>
            if counts.consecutiveFailures >= cfg.maxFailures {
              TransitionTo(Open, now);
            }
          case HalfOpen => TransitionTo(Open, now);
          case Open =>
        }
      } else {
        counts := counts.(totalSuccesses := counts.totalSuccesses + 1, consecutiveSuccesses := counts.consecutiveSuccesses + 1,
                          consecutiveFailures := 0);
        if state == HalfOpen && counts.consecutiveSuccesses >= cfg.successThreshold {
          TransitionTo(Closed, now);
        }
      }
    }

    method Reset(now: int)
      modifies this
      ensures Snapshot() == Transition(old(Snapshot()), Closed, now)
    {
      TransitionTo(Closed, now);
    }

    /** `success` is the outcome of the protected function if it runs; nothing else uses the breaker meanwhile. */
    method Execute(success: bool, start: int, end: int) returns (admitted: bool)
      modifies this
      ensures (Snapshot(), admitted) == AfterExecute(old(Snapshot()), cfg, success, start, end)
    {
      admitted := Allow(start);
      if admitted {
        Record(success, end);
      }
    }
  }

  function AfterExecute(b: Core, cfg: Config, success: bool, start: int, end: int): (Core, bool) {
    var (b', admitted) := AfterAllow(b, cfg, start);
    (if admitted then AfterRecord(b', cfg, success, end) else b', admitted)
  }

  // ---------------------------------------------------------------- runs with late outcomes

  datatype Op =
    | Call(now: int)                   // allow
    | Finish(success: bool, now: int)  // record, for some call admitted earlier
    | ResetOp(now: int)
    | Observe(now: int)                // State()

  /** `outstanding` counts admitted calls not yet recorded; `since` lists the outcomes since the last transition. */
  datatype World = World(b: Core, outstanding: nat, since: seq<bool>)

  const START := World(Core(Closed, ZERO, 0), 0, [])

  function Moved(w: World, b: Core, since: seq<bool>): World {
    w.(b := b, since := if b.state == w.b.state then since else [])
  }

  function Next(w: World, cfg: Config, op: Op): World {
    match op
    case Call(now) =>
      var (b, admitted) := AfterAllow(w.b, cfg, now);
      Moved(w, b, w.since).(outstanding := if admitted then w.outstanding + 1 else w.outstanding)
    case Finish(success, now) =>
      if w.outstanding == 0 then w
      else Moved(w, AfterRecord(w.b, cfg, success, now), w.since + [success]).(outstanding := w.outstanding - 1)
    case ResetOp(now) => Moved(w, Transition(w.b, Closed, now), w.since)
    case Observe(now) => Moved(w, MaybeHalfOpen(w.b, cfg, now), w.since)
  }

  function Run(w: World, cfg: Config, ops: seq<Op>): World {
    if ops == [] then w else Next(Run(w, cfg, ops[..|ops| - 1]), cfg, ops[|ops| - 1])
  }

  /** The length of the longest run of `outcome` at the end. */
  function Trailing(since: seq<bool>, outcome: bool): nat {
    if since == [] || since[|since| - 1] != outcome then 0 else 1 + Trailing(since[..|since| - 1], outcome)
  }

  function HowMany(since: seq<bool>, outcome: bool): nat {
    if since == [] then 0 else HowMany(since[..|since| - 1], outcome) + if since[|since| - 1] == outcome then 1 else 0
  }

  /** The five counters as a function of the outcomes since the last transition. */
  function Tally(since: seq<bool>): Counts {
    Counts(|since|, HowMany(since, true), HowMany(since, false), Trailing(since, true), Trailing(since, false))
  }

  /** What each state says about the outcomes recorded since it was entered. */
  ghost predicate Characterised(w: World, cfg: Config) {
    && w.b.counts == Tally(w.since)
    && (w.b.state == Closed ==> Trailing(w.since, false) < cfg.maxFailures)
    && (w.b.state == HalfOpen ==>
          (forall i :: 0 <= i < |w.since| ==> w.since[i]) && w.b.counts.consecutiveSuccesses == |w.since| < cfg.successThreshold)
  }

  lemma TallySnoc(since: seq<bool>, success: bool)
    ensures Tally(since + [success]) == Tick(Tally(since), success)
  {
    assert (since + [success])[..|since|] == since;
  }

  lemma TallyNil()
    ensures Tally([]) == ZERO && Trailing([], false) == 0
  {
  }

  lemma NextKeepsCharacter(w: World, cfg: Config, op: Op)
    requires cfg.Valid() && Characterised(w, cfg)
    ensures Characterised(Next(w, cfg, op), cfg)
  {
    TallyNil();
    if op.Finish? {
      FinishKeepsCharacter(w, cfg, op);
    } else {
      hide Tally, Trailing;
    }
  }

  lemma FinishKeepsCharacter(w: World, cfg: Config, op: Op)
    requires cfg.Valid() && Characterised(w, cfg) && op.Finish?
    ensures Characterised(Next(w, cfg, op), cfg)
  {
    TallyNil();
    TallySnoc(w.since, op.success);
    TallyTrails(w.since);
    TallyTrails(w.since + [op.success]);
    hide Tally, Trailing, Characterised;
    match w.b.state
    case Closed => FinishClosed(w, cfg, op);
    case Open => FinishOpen(w, cfg, op);
    case HalfOpen => FinishHalfOpen(w, cfg, op);
  }

  lemma TallyTrails(since: seq<bool>)
    ensures Tally(since).consecutiveFailures == Trailing(since, false)
  {
  }

  lemma FinishClosed(w: World, cfg: Config, op: Op)
    requires cfg.Valid() && Characterised(w, cfg) && op.Finish? && w.b.state == Closed
    requires Tally([]) == ZERO && Tally(w.since + [op.success]) == Tick(w.b.counts, op.success)
    requires Tally(w.since + [op.success]).consecutiveFailures == Trailing(w.since + [op.success], false)
    requires w.b.counts.consecutiveFailures == Trailing(w.since, false)
    ensures Characterised(Next(w, cfg, op), cfg)
  {
    hide Tally, Trailing;
  }

  lemma FinishOpen(w: World, cfg: Config, op: Op)
    requires Characterised(w, cfg) && op.Finish? && w.b.state == Open
    requires Tally(w.since + [op.success]) == Tick(w.b.counts, op.success)
    ensures Characterised(Next(w, cfg, op), cfg)
  {
    hide Tally, Trailing;
  }

  lemma FinishHalfOpen(w: World, cfg: Config, op: Op)
    requires cfg.Valid() && Characterised(w, cfg) && op.Finish? && w.b.state == HalfOpen
    requires Tally([]) == ZERO && Trailing([], false) == 0
    requires Tally(w.since + [op.success]) == Tick(w.b.counts, op.success)
    ensures Characterised(Next(w, cfg, op), cfg)
  {
    hide Tally, Trailing;
  }

  /**
   * In every run, whatever outcomes arrive late: Closed means the trailing failures since the last transition number
   * fewer than maxFailures, HalfOpen means only successes, fewer than successThreshold, have been recorded since it
   * was entered, and the counters are exactly those of the outcomes since the last transition.
   */
  lemma {:induction false} RunIsCharacterised(cfg: Config, ops: seq<Op>)
    requires cfg.Valid()
    ensures Characterised(Run(START, cfg, ops), cfg)
  {
    if ops != [] {
      RunIsCharacterised(cfg, ops[..|ops| - 1]);
      NextKeepsCharacter(Run(START, cfg, ops[..|ops| - 1]), cfg, ops[|ops| - 1]);
    }
  }

  /** A half-open breaker admits a call exactly until the first outcome since it was entered has been recorded. */
  lemma HalfOpenAdmitsIff(cfg: Config, ops: seq<Op>, now: int)
    requires cfg.Valid() && Run(START, cfg, ops).b.state == HalfOpen
    ensures var w := Run(START, cfg, ops); AfterAllow(w.b, cfg, now).1 <==> w.since == []
  {
    RunIsCharacterised(cfg, ops);
  }

  /** Open is left only once openTimeout has passed since it was entered, or by Reset; and it rejects until then. */
  lemma OpenUntilTimeout(w: World, cfg: Config, op: Op)
    requires cfg.Valid() && w.b.state == Open
    ensures Next(w, cfg, op).b.state != Open ==> op.ResetOp? || op.now - w.b.openAt >= cfg.openTimeout
    ensures op.Call? ==> (AfterAllow(w.b, cfg, op.now).1 <==> op.now - w.b.openAt >= cfg.openTimeout)
    ensures Next(w, cfg, op).b.openAt == w.b.openAt
  {
  }

  /** Entering Open stamps the time: by failure number maxFailures in a row from Closed, by any failure from HalfOpen. */
  lemma OpensExactlyOnFailure(w: World, cfg: Config, op: Op)
    requires cfg.Valid() && Characterised(w, cfg) && w.b.state != Open
    ensures Next(w, cfg, op).b.state == Open
            <==> op.Finish? && w.outstanding > 0 && !op.success
                 && (w.b.state == HalfOpen || Trailing(w.since, false) + 1 == cfg.maxFailures)
    ensures Next(w, cfg, op).b.state == Open ==> Next(w, cfg, op).b.openAt == op.now
  {
  }

  /** The run entered Open with step `i`, at time `t`: a failure recorded by a closed breaker at its limit or half-open. */
  ghost predicate OpenedBy(cfg: Config, ops: seq<Op>, i: nat, t: int)
    requires i < |ops|
  {
    var before, after := Run(START, cfg, ops[..i]), Run(START, cfg, ops[..i + 1]);
    && before.b.state != Open && after.b.state == Open
    && ops[i].Finish? && !ops[i].success && ops[i].now == t && before.outstanding > 0
    && (before.b.state == HalfOpen || Trailing(before.since, false) + 1 == cfg.maxFailures)
  }

  /** At step `j` the breaker is open since `t`: the step is no Reset, and one that looks at the clock looks too early. */
  ghost predicate StayedOpen(cfg: Config, ops: seq<Op>, j: nat, t: int)
    requires j < |ops|
  {
    var w := Run(START, cfg, ops[..j]);
    && w.b.state == Open && w.b.openAt == t && !ops[j].ResetOp?
    && (ops[j].Call? || ops[j].Observe? ==> ops[j].now - t < cfg.openTimeout)
    && (ops[j].Call? ==> !AfterAllow(w.b, cfg, ops[j].now).1)
  }

  ghost predicate OpenSince(cfg: Config, ops: seq<Op>, i: nat, t: int) {
    i < |ops| && OpenedBy(cfg, ops, i, t) && forall j :: i < j < |ops| ==> StayedOpen(cfg, ops, j, t)
  }

  lemma OpenSinceSnoc(cfg: Config, front: seq<Op>, op: Op, i: nat, t: int)
    requires OpenSince(cfg, front, i, t) && StayedOpen(cfg, front + [op], |front|, t)
    ensures OpenSince(cfg, front + [op], i, t)
  {
    hide Run, Trailing;
    var ops := front + [op];
    assert ops[..i] == front[..i] && ops[..i + 1] == front[..i + 1] && ops[i] == front[i];
    assert OpenedBy(cfg, ops, i, t);
    hide OpenedBy;
    forall j | i < j < |ops| ensures StayedOpen(cfg, ops, j, t) {
      if j < |front| {
        assert StayedOpen(cfg, front, j, t);
        assert ops[..j] == front[..j] && ops[j] == front[j];
      }
    }
  }

  lemma OpensNow(cfg: Config, front: seq<Op>, op: Op)
    requires cfg.Valid() && Run(START, cfg, front).b.state != Open && Run(START, cfg, front + [op]).b.state == Open
    ensures OpenSince(cfg, front + [op], |front|, Run(START, cfg, front + [op]).b.openAt)
  {
    hide Run, Next, Trailing, Characterised, StayedOpen;
    var ops := front + [op];
    RunIsCharacterised(cfg, front);
    RunSnoc(START, cfg, front, op);
    OpensExactlyOnFailure(Run(START, cfg, front), cfg, op);
    assert ops[..|front|] == front && ops[..|front| + 1] == ops && ops[|front|] == op;
  }

  lemma StaysOpenNow(cfg: Config, front: seq<Op>, op: Op)
    requires cfg.Valid() && Run(START, cfg, front).b.state == Open && Run(START, cfg, front + [op]).b.state == Open
    ensures Run(START, cfg, front + [op]).b.openAt == Run(START, cfg, front).b.openAt
    ensures StayedOpen(cfg, front + [op], |front|, Run(START, cfg, front).b.openAt)
  {
    RunSnoc(START, cfg, front, op);
    OpenUntilTimeout(Run(START, cfg, front), cfg, op);
    hide Run;
    assert (front + [op])[..|front|] == front;
  }

  /**
   * In every run that has left the breaker open: it was opened by a recorded failure at the very time it keeps, either
   * number maxFailures in a row or half-open, and since then there was no Reset, every call was rejected, and nobody
   * looked at the state once openTimeout had passed.
   */
  lemma {:induction false} OpenSpan(cfg: Config, ops: seq<Op>)
    requires cfg.Valid() && Run(START, cfg, ops).b.state == Open
    ensures exists i: nat :: OpenSince(cfg, ops, i, Run(START, cfg, ops).b.openAt)
  {
    assert ops != [];
    var front, op := ops[..|ops| - 1], ops[|ops| - 1];
    assert ops == front + [op];
    hide Run, OpenSince, StayedOpen;
    if Run(START, cfg, front).b.state == Open {
      OpenSpan(cfg, front);
      StaysOpenNow(cfg, front, op);
      var t := Run(START, cfg, front).b.openAt;
      var i: nat :| OpenSince(cfg, front, i, t);
      OpenSinceSnoc(cfg, front, op, i, t);
    } else {
      OpensNow(cfg, front, op);
    }
  }

  /** And what leaves Open: Reset, or a call or a look at the state when openTimeout has passed since that failure. */
  lemma LeavesOpenIff(cfg: Config, ops: seq<Op>, op: Op)
    requires cfg.Valid() && Run(START, cfg, ops).b.state == Open
    ensures exists i: nat, t: int :: OpenSince(cfg, ops, i, t)
              && (Run(START, cfg, ops + [op]).b.state != Open
                  <==> op.ResetOp? || ((op.Call? || op.Observe?) && op.now - t >= cfg.openTimeout))
  {
    OpenSpan(cfg, ops);
    RunSnoc(START, cfg, ops, op);
    var w := Run(START, cfg, ops);
    hide Run, OpenSince;
    var i: nat :| OpenSince(cfg, ops, i, w.b.openAt);
    assert Next(w, cfg, op).b.state != Open
           <==> op.ResetOp? || ((op.Call? || op.Observe?) && op.now - w.b.openAt >= cfg.openTimeout);
  }

  // ---------------------------------------------------------------- who is admitted

  /** When a run lets a call through: closed, half-open without an outcome yet, or open for openTimeout. */
  ghost predicate LetsThrough(cfg: Config, ops: seq<Op>, now: int) {
    var w := Run(START, cfg, ops);
    match w.b.state
    case Closed => true
    case HalfOpen => w.since == []
    case Open => exists i: nat, t: int :: OpenSince(cfg, ops, i, t) && now - t >= cfg.openTimeout
  }

  lemma OpenTimeIsKept(cfg: Config, ops: seq<Op>, i: nat, t: int)
    requires cfg.Valid() && Run(START, cfg, ops).b.state == Open && OpenSince(cfg, ops, i, t)
    ensures Run(START, cfg, ops).b.openAt == t
  {
    var last := ops[..|ops| - 1];
    RunSnoc(START, cfg, last, ops[|ops| - 1]);
    assert ops == last + [ops[|ops| - 1]];
    if i == |ops| - 1 {
      RunIsCharacterised(cfg, last);
      OpensExactlyOnFailure(Run(START, cfg, last), cfg, ops[i]);
      assert ops[..i + 1] == ops;
    } else {
      assert StayedOpen(cfg, ops, |ops| - 1, t);
      OpenUntilTimeout(Run(START, cfg, last), cfg, ops[|ops| - 1]);
    }
  }

  lemma OpenLetsThroughIff(cfg: Config, ops: seq<Op>, now: int)
    requires cfg.Valid() && Run(START, cfg, ops).b.state == Open
    ensures LetsThrough(cfg, ops, now) <==> now - Run(START, cfg, ops).b.openAt >= cfg.openTimeout
  {
    OpenSpan(cfg, ops);
    hide Run, OpenSince;
    forall i: nat, t: int | OpenSince(cfg, ops, i, t) ensures t == Run(START, cfg, ops).b.openAt {
      OpenTimeIsKept(cfg, ops, i, t);
    }
  }

  /** In every run, exactly which calls are admitted; one that is not leaves no call outstanding. */
  lemma AdmittedIff(cfg: Config, ops: seq<Op>, now: int)
    requires cfg.Valid()
    ensures var w, z := Run(START, cfg, ops), Run(START, cfg, ops + [Call(now)]);
            z.outstanding == if LetsThrough(cfg, ops, now) then w.outstanding + 1 else w.outstanding
  {
    RunIsCharacterised(cfg, ops);
    RunSnoc(START, cfg, ops, Call(now));
    if Run(START, cfg, ops).b.state == Open {
      OpenLetsThroughIff(cfg, ops, now);
    }
    hide Run, OpenSince;
  }

  /** A closed breaker runs every function and records its outcome: it opens on failure number maxFailures in a row. */
  lemma ClosedRunsAndRecords(cfg: Config, ops: seq<Op>, success: bool, start: int, end: int)
    requires cfg.Valid() && Run(START, cfg, ops).b.state == Closed
    ensures var w := Run(START, cfg, ops);
            var (b, admitted) := AfterExecute(w.b, cfg, success, start, end);
            && admitted
            && if !success && Trailing(w.since, false) + 1 == cfg.maxFailures then b == Core(Open, ZERO, end)
               else b == Core(Closed, Tally(w.since + [success]), w.b.openAt)
  {
    var w := Run(START, cfg, ops);
    RunIsCharacterised(cfg, ops);
    TallySnoc(w.since, success);
    TallyTrails(w.since);
    hide Run, Tally, Trailing;
  }

  /** Reset closes the breaker from any state; the next call is admitted, and a closed breaker keeps its counters. */
  lemma ResetCloses(cfg: Config, ops: seq<Op>, now: int, later: int)
    requires cfg.Valid()
    ensures var w, z := Run(START, cfg, ops), Run(START, cfg, ops + [ResetOp(now)]);
            && z.b.state == Closed && z.since == (if w.b.state == Closed then w.since else []) && z.outstanding == w.outstanding
            && Run(START, cfg, ops + [ResetOp(now)] + [Call(later)]).outstanding == z.outstanding + 1
  {
    RunSnoc(START, cfg, ops, ResetOp(now));
    AdmittedIff(cfg, ops + [ResetOp(now)], later);
    hide Run;
  }

  // ---------------------------------------------------------------- recovery

  ghost predicate NoReset(ops: seq<Op>) {
    forall i :: 0 <= i < |ops| ==> !ops[i].ResetOp?
  }

  ghost predicate Admits(w: World, cfg: Config, ops: seq<Op>, now: int) {
    AfterAllow(Run(w, cfg, ops).b, cfg, now).1
  }

  lemma {:induction false} StaysWedged(w: World, cfg: Config, ops: seq<Op>)
    requires w.b.state == HalfOpen && w.b.counts.requests >= 1 && w.outstanding == 0 && NoReset(ops)
    ensures Run(w, cfg, ops) == w
  {
    if ops != [] {
      StaysWedged(w, cfg, ops[..|ops| - 1]);
    }
  }

  /** The clock readings of these steps do not go back, start at `from` or later and end by `until`. */
  ghost predicate InOrder(ops: seq<Op>, from: int, until: int) {
    && (forall i :: 0 <= i < |ops| ==> from <= ops[i].now <= until)
    && (forall i, j :: 0 <= i < j < |ops| ==> ops[i].now <= ops[j].now)
    && from <= until
  }

  /** A call at `now`, after these steps from `from` on, is admitted without a Reset. */
  ghost predicate RecoversBy(w: World, cfg: Config, ops: seq<Op>, from: int, now: int) {
    NoReset(ops) && InOrder(ops, from, now) && Admits(w, cfg, ops, now)
  }

  lemma ReopensAndAdmits(w: World, cfg: Config, from: int)
    requires cfg.Valid() && w.b.state == HalfOpen && w.outstanding >= 1
    ensures RecoversBy(w, cfg, [Finish(false, from)], from, from + cfg.openTimeout)
  {
    var ops := [Finish(false, from)];
    assert [] + ops == ops && Run(w, cfg, []) == w;
    RunSnoc(w, cfg, [], Finish(false, from));
    hide Run;
  }

  /**
   * A half-open breaker that has recorded a probe without closing admits a call again, without Reset, if and only if
   * some call admitted earlier is still outstanding (its failure would reopen the breaker). With none it rejects
   * every call forever. The recovering run can start at any time and its clock does not run backwards.
   */
  lemma HalfOpenRecoversIff(w: World, cfg: Config, from: int)
    requires cfg.Valid() && w.b.state == HalfOpen && w.b.counts.requests >= 1
    ensures (exists ops, now :: RecoversBy(w, cfg, ops, from, now)) <==> w.outstanding >= 1
    ensures (exists ops, now :: NoReset(ops) && Admits(w, cfg, ops, now)) <==> w.outstanding >= 1
  {
    if w.outstanding >= 1 {
      ReopensAndAdmits(w, cfg, from);
    } else {
      forall ops, now | NoReset(ops) ensures !Admits(w, cfg, ops, now) {
        StaysWedged(w, cfg, ops);
      }
    }
  }

  /** Successful calls one after the other: each finishes before the next begins. */
  function ExecuteAll(b: Core, cfg: Config, times: seq<int>): Core {
    if times == [] then b
    else AfterExecute(ExecuteAll(b, cfg, times[..|times| - 1]), cfg, true, times[|times| - 1], times[|times| - 1]).0
  }

  lemma {:induction false} SequentialState(b: Core, cfg: Config, times: seq<int>)
    requires cfg.Valid() && b.state == Open && times != []
    requires forall i :: 0 <= i < |times| ==> times[i] - b.openAt >= cfg.openTimeout
    ensures var z := ExecuteAll(b, cfg, times);
            if cfg.successThreshold == 1 then z.state == Closed else z.state == HalfOpen && z.counts.requests == 1
  {
    var front := times[..|times| - 1];
    if front == [] {
      assert ExecuteAll(b, cfg, front) == b;
    } else {
      SequentialState(b, cfg, front);
    }
  }

  /**
   * The documented recovery, successThreshold probes in a row, works for callers that take turns if and only if the
   * threshold is 1: the gate reads `Requests`, which the first recorded probe raises for good. The default is 2.
   */
  lemma SequentialRecoveryIff(b: Core, cfg: Config, times: seq<int>)
    requires cfg.Valid() && b.state == Open && |times| >= cfg.successThreshold
    requires forall i :: 0 <= i < |times| ==> times[i] - b.openAt >= cfg.openTimeout
    ensures ExecuteAll(b, cfg, times).state == Closed <==> cfg.successThreshold == 1
  {
    SequentialState(b, cfg, times);
  }

  function Calls(n: nat, now: int): seq<Op> {
    if n == 0 then [] else Calls(n - 1, now) + [Call(now)]
  }

  function Finishes(n: nat, now: int): seq<Op> {
    if n == 0 then [] else Finishes(n - 1, now) + [Finish(true, now)]
  }

  /** Nor is there a single probe: until an outcome is recorded every call is let through. */
  lemma {:induction false} ProbesUnlimited(w: World, cfg: Config, n: nat, now: int)
    requires w.b.state == HalfOpen && w.b.counts.requests == 0
    ensures Run(w, cfg, Calls(n, now)) == w.(outstanding := w.outstanding + n)
  {
    if n > 0 {
      ProbesUnlimited(w, cfg, n - 1, now);
      assert Calls(n, now)[..|Calls(n, now)| - 1] == Calls(n - 1, now);
    }
  }

  lemma RunSnoc(w: World, cfg: Config, ops: seq<Op>, op: Op)
    ensures Run(w, cfg, ops + [op]) == Next(Run(w, cfg, ops), cfg, op)
  {
    assert (ops + [op])[..|ops|] == ops;
  }

  /** One success recorded by a half-open breaker. */
  lemma SuccessStep(w: World, cfg: Config, now: int)
    requires Characterised(w, cfg) && w.b.state == HalfOpen && w.outstanding > 0
    ensures var z := Next(w, cfg, Finish(true, now));
            && z.outstanding == w.outstanding - 1
            && if |w.since| + 1 < cfg.successThreshold then z.b.state == HalfOpen && z.since == w.since + [true] else z.b.state == Closed
  {
    hide Tally, Trailing;
  }

  /** A success never takes a closed breaker out of Closed. */
  lemma ClosedStays(w: World, cfg: Config, now: int)
    requires w.b.state == Closed
    ensures Next(w, cfg, Finish(true, now)).b.state == Closed
  {
  }

  /** What does close the breaker: the admitted calls still outstanding suffice to reach the threshold. */
  lemma {:induction false} OutstandingSuccesses(w: World, cfg: Config, n: nat, now: int)
    requires cfg.Valid() && Characterised(w, cfg) && w.b.state == HalfOpen && n <= w.outstanding
    ensures var z := Run(w, cfg, Finishes(n, now));
            if n < cfg.successThreshold - |w.since|
            then z.b.state == HalfOpen && |z.since| == |w.since| + n && z.outstanding == w.outstanding - n && Characterised(z, cfg)
            else z.b.state == Closed
  {
    if n == 0 {
      BelowThreshold(w, cfg);
    } else {
      OutstandingSuccesses(w, cfg, n - 1, now);
      var ops := Finishes(n - 1, now);
      var before := Run(w, cfg, ops);
      RunSnoc(w, cfg, ops, Finish(true, now));
      hide Run, Characterised, Next;
      if before.b.state == HalfOpen {
        NextKeepsCharacter(before, cfg, Finish(true, now));
        SuccessStep(before, cfg, now);
      } else {
        ClosedStays(before, cfg, now);
      }
    }
  }

  lemma BelowThreshold(w: World, cfg: Config)
    requires Characterised(w, cfg) && w.b.state == HalfOpen
    ensures |w.since| < cfg.successThreshold
  {
  }

  /** Execute with nothing else using the breaker is the two steps of the runs above. */
  lemma ExecuteIsSteps(w: World, cfg: Config, success: bool, start: int, end: int) returns (ops: seq<Op>)
    ensures var (b, admitted) := AfterExecute(w.b, cfg, success, start, end); var z := Run(w, cfg, ops);
            z.b == b && z.outstanding == w.outstanding && ops == if admitted then [Call(start), Finish(success, end)] else [Call(start)]
  {
    var called := [Call(start)];
    assert [] + [Call(start)] == called && Run(w, cfg, []) == w;
    RunSnoc(w, cfg, [], Call(start));
    RunSnoc(w, cfg, called, Finish(success, end));
    hide Run;
    assert called + [Finish(success, end)] == [Call(start), Finish(success, end)];
    ops := if AfterExecute(w.b, cfg, success, start, end).1 then [Call(start), Finish(success, end)] else called;
  }
}
