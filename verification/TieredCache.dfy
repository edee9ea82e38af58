/**
 * The tiered reads of the query service (internal/querying/service.go): an L1 cache per pod, Redis shared by all
 * pods, ClickHouse behind both.
 *
 * The L1 calls Get and Set are one step each; module L1Races takes them apart. What that merges does not matter to the
 * bound: an expiry check that comes late is covered by DelayedCheckIsBounded, a delete that comes late by LoseL1, and the
 * revalidation flags only decide who refreshes, which ElectLate lets anyone do at any time.
 *
 * ClickHouse is an oracle that may answer anything at any time; `log` remembers what it answered, and when.
 * Times are nanoseconds of one clock shared by pods and Redis.
 */
module TieredCache {
  import opened Common
  import opened L1

  const SECOND := 1_000_000_000
  const L2_TTL := 300 * SECOND
  const L1_TTL := 60 * SECOND
  const L1_STALE := 45 * SECOND

  /** A Redis value with its expiry. */
  datatype Cell = Cell(value: Bytes, expireAt: int)

  /** ClickHouse returned `value` for the query behind `key` at time `at`. */
  datatype Returned = Returned(key: string, value: Bytes, at: int)

  type Log = set<Returned>

  /** Until `deadline`, `value` is at most `age` old: some query for this very key returned it no longer ago. */
  ghost predicate Backed(log: Log, key: string, value: Bytes, deadline: int, age: int) {
    exists q :: Returned(key, value, q) in log && deadline <= q + age
  }

  ghost predicate L1Backed(log: Log, entries: map<string, Entry>, age: int) {
    forall k :: k in entries ==> Backed(log, k, entries[k].value, entries[k].expiresAt, age)
  }

  ghost predicate L2Backed(log: Log, cells: map<string, Cell>, age: int) {
    forall k :: k in cells ==> Backed(log, k, cells[k].value, cells[k].expireAt, age)
  }

  /** `lag` bounds the time from a query, or a read of Redis, to the cache writes that follow it. */
  function L2Age(lag: nat): int {
    L2_TTL + lag
  }

  function L1Age(lag: nat): int {
    L2_TTL + L1_TTL + 2 * lag
  }

  // ---------------------------------------------------------------- every interleaving, any number of pods

  /** What a goroutine is in the middle of. `q` is when its value was returned by ClickHouse. */
  datatype Flight =
    | MissedL1(pod: nat, key: string)
    | ReadL2(pod: nat, key: string, value: Bytes, readAt: int)
    | Asking(pod: nat, key: string)
    | Refreshing(pod: nat, key: string)
    | RefreshFailed(pod: nat, key: string)
    | Got(pod: nat, key: string, value: Bytes, q: int, asked: bool)
    | FilledL1(pod: nat, key: string, value: Bytes, q: int, asked: bool)
    | Waiting(pod: nat, key: string, leader: nat)                 // for another goroutine's single-flight call
    | Released(pod: nat, key: string, value: Bytes, q: int)       // the call has returned to its own caller

  datatype Answer = Answer(key: string, value: Bytes, at: int)

  datatype World = World(
    pods: map<nat, State>,
    l2: map<string, Cell>,
    flights: map<nat, Flight>,
    log: Log,
    answers: seq<Answer>,
    clock: int)

  datatype Step =
    | Lookup(tid: nat, pod: nat, key: string, again: int, swr: Option<nat>)
    | AskL2(tid: nat)
    | FillFromL2(tid: nat)
    | Query(tid: nat, result: Option<Bytes>)
    | DeleteStale(tid: nat)
    | FillL1(tid: nat)
    | FillL2(tid: nat, stored: bool)
    | Join(tid: nat, leader: nat)
    | Share(tid: nat)
    | Leave(tid: nat)
    | ElectLate(tid: nat, pod: nat, key: string)
    | Sweep(pod: nat, max: nat)
    | LoseL1(pod: nat, key: string)
    | LoseL2(key: string)

  function Pod(w: World, pod: nat): State {
    if pod in w.pods then w.pods[pod] else State(map[], [], {})
  }

  /** Inside a single-flight call that a second caller of the pod for the same key joins. */
  predicate Leads(f: Flight) {
    f.Asking? || ((f.Got? || f.FilledL1?) && f.asked)
  }

  function SetL1(s: State, key: string, value: Bytes, now: int): State {
    ClearFlag(Put(s, key, NewEntry(value, L1_TTL, L1_STALE, now)), key)
  }

  /** One step at time `now`; a step that is not enabled, or comes later than `lag` allows, changes nothing. */
  function Act(w: World, step: Step, now: int, lag: nat): World {
    match step
    case Lookup(tid, pod, key, again, swr) =>
      if tid in w.flights then w
      else
        var (s, r) := AfterGet(Pod(w, pod), key, now, again);
        var w1 := w.(pods := w.pods[pod := s]);
        (match r
         case Miss => w1.(flights := w1.flights[tid := MissedL1(pod, key)])
         case Hit(value, needsRefresh) =>
           var w2 := w1.(answers := w1.answers + [Answer(key, value, now)]);
           if needsRefresh && swr.Some? && swr.value !in w2.flights
           then w2.(flights := w2.flights[swr.value := Refreshing(pod, key)]) else w2)
    case AskL2(tid) =>
      if tid !in w.flights || !w.flights[tid].MissedL1? then w
      else
        var MissedL1(pod, key) := w.flights[tid];
        if key in w.l2 && now <= w.l2[key].expireAt
        then w.(flights := w.flights[tid := ReadL2(pod, key, w.l2[key].value, now)])
        else w.(flights := w.flights[tid := Asking(pod, key)])
    case FillFromL2(tid) =>
      if tid !in w.flights || !w.flights[tid].ReadL2? || now > w.flights[tid].readAt + lag then w
      else
        var ReadL2(pod, key, value, readAt) := w.flights[tid];
        w.(pods := w.pods[pod := SetL1(Pod(w, pod), key, value, now)], flights := w.flights - {tid},
           answers := w.answers + [Answer(key, value, now)])
    case Query(tid, result) =>
      if tid !in w.flights || !(w.flights[tid].Asking? || w.flights[tid].Refreshing?) then w
      else
        var f := w.flights[tid];
        (match result
         case None => if f.Refreshing? then w.(flights := w.flights[tid := RefreshFailed(f.pod, f.key)])
                      else w.(flights := w.flights - {tid})
         case Some(value) =>
           w.(flights := w.flights[tid := Got(f.pod, f.key, value, now, f.Asking?)], log := w.log + {Returned(f.key, value, now)}))
    case DeleteStale(tid) =>
      if tid !in w.flights || !w.flights[tid].RefreshFailed? then w
      else
        var RefreshFailed(pod, key) := w.flights[tid];
        w.(pods := w.pods[pod := ClearFlag(Drop(Pod(w, pod), key), key)], flights := w.flights - {tid})
    case FillL1(tid) =>
      if tid !in w.flights || !w.flights[tid].Got? || now > w.flights[tid].q + lag then w
      else
        var Got(pod, key, value, q, asked) := w.flights[tid];
        w.(pods := w.pods[pod := SetL1(Pod(w, pod), key, value, now)],
           flights := w.flights[tid := FilledL1(pod, key, value, q, asked)])
    case FillL2(tid, stored) =>
      if tid !in w.flights || !w.flights[tid].FilledL1? || now > w.flights[tid].q + lag then w
      else
        var FilledL1(pod, key, value, q, asked) := w.flights[tid];
        w.(l2 := if stored then w.l2[key := Cell(value, now + L2_TTL)] else w.l2,
           flights := if asked then w.flights[tid := Released(pod, key, value, q)] else w.flights - {tid},
           answers := if asked then w.answers + [Answer(key, value, now)] else w.answers)
    case Join(tid, leader) =>
      if tid in w.flights && leader in w.flights && w.flights[tid].Asking? && Leads(w.flights[leader])
         && w.flights[tid].pod == w.flights[leader].pod && w.flights[tid].key == w.flights[leader].key
      then w.(flights := w.flights[tid := Waiting(w.flights[tid].pod, w.flights[tid].key, leader)])
      else w
    case Share(tid) =>
      if tid !in w.flights || !w.flights[tid].Waiting? || w.flights[tid].leader !in w.flights then w
      else
        var Waiting(pod, key, leader) := w.flights[tid];
        var call := w.flights[leader];
        if call.Released? && call.pod == pod && call.key == key && now <= call.q + lag
        then w.(flights := w.flights - {tid}, answers := w.answers + [Answer(key, call.value, now)])
        else w
    case Leave(tid) =>
      if tid in w.flights && (w.flights[tid].Waiting? || w.flights[tid].Released?) then w.(flights := w.flights - {tid}) else w
    case ElectLate(tid, pod, key) =>
      if tid in w.flights then w else w.(flights := w.flights[tid := Refreshing(pod, key)])
    case Sweep(pod, max) => w.(pods := w.pods[pod := Swept(Pod(w, pod), max, now)])
    case LoseL1(pod, key) => w.(pods := w.pods[pod := Drop(Pod(w, pod), key)])
    case LoseL2(key) => w.(l2 := w.l2 - {key})
  }

  /** The clock never runs backwards: a step at an earlier time than the last one is ignored. */
  function Next(w: World, step: Step, now: int, lag: nat): World {
    if now < w.clock then w else Act(w.(clock := now), step, now, lag)
  }

  const START := World(map[], map[], map[], {}, [], 0)

  function Run(steps: seq<(Step, int)>, lag: nat): World {
    if steps == [] then START
    else Next(Run(steps[..|steps| - 1], lag), steps[|steps| - 1].0, steps[|steps| - 1].1, lag)
  }

  // ---------------------------------------------------------------- bounded staleness

  /** An answer given at `at` was returned by ClickHouse for the same key within the last `age`. */
  ghost predicate RecentEnough(log: Log, a: Answer, age: int) {
    exists q :: Returned(a.key, a.value, q) in log && a.at - age <= q <= a.at
  }

  ghost predicate FlightBacked(log: Log, f: Flight, clock: int, lag: nat) {
    match f
    case ReadL2(_, key, value, readAt) => readAt <= clock && Backed(log, key, value, readAt, L2Age(lag))
    case Got(_, key, value, q, _) => Returned(key, value, q) in log && q <= clock
    case FilledL1(_, key, value, q, _) => Returned(key, value, q) in log && q <= clock
    case Released(_, key, value, q) => Returned(key, value, q) in log && q <= clock
    case _ => true
  }

  ghost predicate LogPast(log: Log, clock: int) {
    forall r :: r in log ==> r.at <= clock
  }

  ghost predicate PodsBacked(w: World, lag: nat) {
    forall p :: p in w.pods ==> Covered(w.pods[p].entries, w.pods[p].order) && L1Backed(w.log, w.pods[p].entries, L1Age(lag))
  }

  ghost predicate FlightsBacked(w: World, lag: nat) {
    forall t :: t in w.flights ==> FlightBacked(w.log, w.flights[t], w.clock, lag)
  }

  ghost predicate AnswersRecent(w: World, lag: nat) {
    forall i :: 0 <= i < |w.answers| ==> RecentEnough(w.log, w.answers[i], L1Age(lag))
  }

  ghost predicate Inv(w: World, lag: nat) {
    && PodsBacked(w, lag) && L2Backed(w.log, w.l2, L2Age(lag))
    && FlightsBacked(w, lag) && AnswersRecent(w, lag) && LogPast(w.log, w.clock)
  }

  lemma SetKeepsBacked(log: Log, s: State, key: string, value: Bytes, now: int, age: int)
    requires Covered(s.entries, s.order) && L1Backed(log, s.entries, age)
    requires Backed(log, key, value, now + L1_TTL, age)
    ensures var t := SetL1(s, key, value, now); Covered(t.entries, t.order) && L1Backed(log, t.entries, age)
  {
  }

  lemma SweepKeepsBacked(log: Log, s: State, max: nat, now: int, age: int)
    requires Covered(s.entries, s.order) && L1Backed(log, s.entries, age)
    ensures var t := Swept(s, max, now); Covered(t.entries, t.order) && L1Backed(log, t.entries, age)
  {
    SweepRestoresBound(s, max, now);
  }

  lemma GrowBacked(log: Log, more: Log, key: string, value: Bytes, deadline: int, age: int)
    requires log <= more && Backed(log, key, value, deadline, age)
    ensures Backed(more, key, value, deadline, age)
  {
    var q :| Returned(key, value, q) in log && deadline <= q + age;
    assert Returned(key, value, q) in more;
  }

  /** The world's tiers and answers stay sound when ClickHouse returns something new. */
  lemma GrowLog(w: World, r: Returned, lag: nat)
    requires Inv(w, lag) && r.at <= w.clock
    ensures Inv(w.(log := w.log + {r}), lag)
  {
    var more := w.log + {r};
    forall p, k | p in w.pods && k in w.pods[p].entries
      ensures Backed(more, k, w.pods[p].entries[k].value, w.pods[p].entries[k].expiresAt, L1Age(lag))
    {
      GrowBacked(w.log, more, k, w.pods[p].entries[k].value, w.pods[p].entries[k].expiresAt, L1Age(lag));
    }
    forall k | k in w.l2 ensures Backed(more, k, w.l2[k].value, w.l2[k].expireAt, L2Age(lag)) {
      GrowBacked(w.log, more, k, w.l2[k].value, w.l2[k].expireAt, L2Age(lag));
    }
    forall t | t in w.flights ensures FlightBacked(more, w.flights[t], w.clock, lag) {
      var f := w.flights[t];
      if f.ReadL2? { GrowBacked(w.log, more, f.key, f.value, f.readAt, L2Age(lag)); }
    }
    forall i | 0 <= i < |w.answers| ensures RecentEnough(more, w.answers[i], L1Age(lag)) {
      var a := w.answers[i];
      var q :| Returned(a.key, a.value, q) in w.log && a.at - L1Age(lag) <= q <= a.at;
      assert Returned(a.key, a.value, q) in more;
    }
  }

  lemma AdvanceClock(w: World, now: int, lag: nat)
    requires Inv(w, lag) && w.clock <= now
    ensures Inv(w.(clock := now), lag)
  {
    forall t | t in w.flights ensures FlightBacked(w.log, w.flights[t], now, lag) {
      assert FlightBacked(w.log, w.flights[t], w.clock, lag);
    }
  }

  /** Replacing one pod's cache by a sound one. */
  lemma PodStep(w: World, pod: nat, s: State, lag: nat)
    requires Inv(w, lag) && Covered(s.entries, s.order) && L1Backed(w.log, s.entries, L1Age(lag))
    ensures Inv(w.(pods := w.pods[pod := s]), lag)
  {
  }

  lemma FlightStep(w: World, tid: nat, f: Flight, lag: nat)
    requires Inv(w, lag) && FlightBacked(w.log, f, w.clock, lag)
    ensures Inv(w.(flights := w.flights[tid := f]), lag)
    ensures Inv(w.(flights := w.flights - {tid}), lag)
  {
  }

  lemma AnswerStep(w: World, a: Answer, lag: nat)
    requires Inv(w, lag) && RecentEnough(w.log, a, L1Age(lag))
    ensures Inv(w.(answers := w.answers + [a]), lag)
  {
  }

  lemma L2Step(w: World, key: string, c: Cell, lag: nat)
    requires Inv(w, lag) && Backed(w.log, key, c.value, c.expireAt, L2Age(lag))
    ensures Inv(w.(l2 := w.l2[key := c]), lag)
  {
  }

  lemma PodSound(w: World, pod: nat, lag: nat)
    requires Inv(w, lag)
    ensures var s := Pod(w, pod); Covered(s.entries, s.order) && L1Backed(w.log, s.entries, L1Age(lag))
  {
  }

  /** Whatever is usable at `now` under an age bound was returned within that age. */
  lemma BackedIsRecent(log: Log, key: string, value: Bytes, deadline: int, age: int, now: int, wider: int)
    requires Backed(log, key, value, deadline, age) && LogPast(log, now) && now <= deadline + (wider - age)
    ensures RecentEnough(log, Answer(key, value, now), wider)
  {
    var q :| Returned(key, value, q) in log && deadline <= q + age;
  }

  lemma LookupKeepsInv(w: World, tid: nat, pod: nat, key: string, again: int, swr: Option<nat>, lag: nat)
    requires Inv(w, lag)
    ensures Inv(Act(w, Lookup(tid, pod, key, again, swr), w.clock, lag), lag)
  {
    hide Inv;
    if tid !in w.flights {
      var (s, r) := AfterGet(Pod(w, pod), key, w.clock, again);
      PodSound(w, pod, lag);
      PodStep(w, pod, s, lag);
      var w1 := w.(pods := w.pods[pod := s]);
      match r
      case Miss => FlightStep(w1, tid, MissedL1(pod, key), lag);
      case Hit(value, needsRefresh) =>
        LogIsPast(w, lag);
        var e := Pod(w, pod).entries[key];
        BackedIsRecent(w.log, key, value, e.expiresAt, L1Age(lag), w.clock, L1Age(lag));
        AnswerStep(w1, Answer(key, value, w.clock), lag);
        var w2 := w1.(answers := w1.answers + [Answer(key, value, w.clock)]);
        if needsRefresh && swr.Some? {
          FlightStep(w2, swr.value, Refreshing(pod, key), lag);
        }
    }
  }

  lemma LogIsPast(w: World, lag: nat)
    requires Inv(w, lag)
    ensures LogPast(w.log, w.clock)
  {
  }

  lemma FillFromL2KeepsInv(w: World, tid: nat, lag: nat)
    requires Inv(w, lag)
    ensures Inv(Act(w, FillFromL2(tid), w.clock, lag), lag)
  {
    if tid in w.flights && w.flights[tid].ReadL2? && w.clock <= w.flights[tid].readAt + lag {
      var f, now := w.flights[tid], w.clock;
      assert FlightBacked(w.log, f, now, lag);
      var q :| Returned(f.key, f.value, q) in w.log && f.readAt <= q + L2Age(lag);
      assert now + L1_TTL <= q + L1Age(lag);
      var s := SetL1(Pod(w, f.pod), f.key, f.value, now);
      SetKeepsBacked(w.log, Pod(w, f.pod), f.key, f.value, now, L1Age(lag));
      assert RecentEnough(w.log, Answer(f.key, f.value, now), L1Age(lag));
      hide Inv;
      PodStep(w, f.pod, s, lag);
      var w1 := w.(pods := w.pods[f.pod := s]);
      FlightStep(w1, tid, Asking(f.pod, f.key), lag);
      AnswerStep(w1.(flights := w1.flights - {tid}), Answer(f.key, f.value, now), lag);
    }
  }

  lemma FillL1KeepsInv(w: World, tid: nat, lag: nat)
    requires Inv(w, lag)
    ensures Inv(Act(w, FillL1(tid), w.clock, lag), lag)
  {
    if tid in w.flights && w.flights[tid].Got? && w.clock <= w.flights[tid].q + lag {
      var f, now := w.flights[tid], w.clock;
      assert FlightBacked(w.log, f, now, lag);
      assert Returned(f.key, f.value, f.q) in w.log && now + L1_TTL <= f.q + L1Age(lag);
      var s := SetL1(Pod(w, f.pod), f.key, f.value, now);
      SetKeepsBacked(w.log, Pod(w, f.pod), f.key, f.value, now, L1Age(lag));
      hide Inv;
      PodStep(w, f.pod, s, lag);
      FlightStep(w.(pods := w.pods[f.pod := s]), tid, FilledL1(f.pod, f.key, f.value, f.q, f.asked), lag);
    }
  }

  lemma FillL2KeepsInv(w: World, tid: nat, stored: bool, lag: nat)
    requires Inv(w, lag)
    ensures Inv(Act(w, FillL2(tid, stored), w.clock, lag), lag)
  {
    if tid in w.flights && w.flights[tid].FilledL1? && w.clock <= w.flights[tid].q + lag {
      var f, now := w.flights[tid], w.clock;
      assert FlightBacked(w.log, f, now, lag);
      var c := Cell(f.value, now + L2_TTL);
      assert Returned(f.key, f.value, f.q) in w.log && c.expireAt <= f.q + L2Age(lag);
      assert RecentEnough(w.log, Answer(f.key, f.value, now), L1Age(lag));
      hide Inv;
      if stored { L2Step(w, f.key, c, lag); }
      var w1 := w.(l2 := if stored then w.l2[f.key := c] else w.l2);
      if f.asked {
        var done := Released(f.pod, f.key, f.value, f.q);
        FlightStep(w1, tid, done, lag);
        AnswerStep(w1.(flights := w1.flights[tid := done]), Answer(f.key, f.value, now), lag);
      } else {
        FlightStep(w1, tid, Asking(f.pod, f.key), lag);
      }
    }
  }

  lemma ShareKeepsInv(w: World, tid: nat, lag: nat)
    requires Inv(w, lag)
    ensures Inv(Act(w, Share(tid), w.clock, lag), lag)
  {
    if tid in w.flights && w.flights[tid].Waiting? && w.flights[tid].leader in w.flights {
      var f, now := w.flights[w.flights[tid].leader], w.clock;
      if f.Released? && now <= f.q + lag {
        assert FlightBacked(w.log, f, now, lag);
        assert Returned(f.key, f.value, f.q) in w.log;
        assert RecentEnough(w.log, Answer(f.key, f.value, now), L1Age(lag));
        hide Inv;
        FlightStep(w, tid, Asking(f.pod, f.key), lag);
        AnswerStep(w.(flights := w.flights - {tid}), Answer(f.key, f.value, now), lag);
      }
    }
  }

  lemma JoinKeepsInv(w: World, tid: nat, leader: nat, lag: nat)
    requires Inv(w, lag)
    ensures Inv(Act(w, Join(tid, leader), w.clock, lag), lag)
    ensures Inv(Act(w, Leave(tid), w.clock, lag), lag)
  {
    hide Inv;
    if tid in w.flights {
      var f := w.flights[tid];
      FlightStep(w, tid, Waiting(f.pod, f.key, leader), lag);
    }
  }

  lemma QueryKeepsInv(w: World, tid: nat, result: Option<Bytes>, lag: nat)
    requires Inv(w, lag)
    ensures Inv(Act(w, Query(tid, result), w.clock, lag), lag)
  {
    hide Inv;
    if tid in w.flights && (w.flights[tid].Asking? || w.flights[tid].Refreshing?) {
      var f := w.flights[tid];
      match result
      case None => FlightStep(w, tid, RefreshFailed(f.pod, f.key), lag);
      case Some(value) =>
        var r := Returned(f.key, value, w.clock);
        GrowLog(w, r, lag);
        FlightStep(w.(log := w.log + {r}), tid, Got(f.pod, f.key, value, w.clock, f.Asking?), lag);
    }
  }

  lemma AskL2KeepsInv(w: World, tid: nat, lag: nat)
    requires Inv(w, lag)
    ensures Inv(Act(w, AskL2(tid), w.clock, lag), lag)
  {
    if tid in w.flights && w.flights[tid].MissedL1? {
      var f := w.flights[tid];
      if f.key in w.l2 && w.clock <= w.l2[f.key].expireAt {
        var c := w.l2[f.key];
        assert Backed(w.log, f.key, c.value, c.expireAt, L2Age(lag));
        FlightStep(w, tid, ReadL2(f.pod, f.key, c.value, w.clock), lag);
      } else {
        FlightStep(w, tid, Asking(f.pod, f.key), lag);
      }
    }
  }

  lemma OtherStepKeepsInv(w: World, step: Step, lag: nat)
    requires Inv(w, lag) && (step.DeleteStale? || step.ElectLate? || step.Sweep? || step.LoseL1? || step.LoseL2?)
    ensures Inv(Act(w, step, w.clock, lag), lag)
  {
    match step
    case DeleteStale(tid) =>
      if tid in w.flights && w.flights[tid].RefreshFailed? {
        var f := w.flights[tid];
        PodStep(w, f.pod, ClearFlag(Drop(Pod(w, f.pod), f.key), f.key), lag);
        FlightStep(w.(pods := w.pods[f.pod := ClearFlag(Drop(Pod(w, f.pod), f.key), f.key)]), tid, f, lag);
      }
    case ElectLate(tid, pod, key) =>
      FlightStep(w, tid, Refreshing(pod, key), lag);
    case Sweep(pod, max) =>
      hide Swept;
      SweepKeepsBacked(w.log, Pod(w, pod), max, w.clock, L1Age(lag));
      PodStep(w, pod, Swept(Pod(w, pod), max, w.clock), lag);
    case LoseL1(pod, key) => PodStep(w, pod, Drop(Pod(w, pod), key), lag);
    case LoseL2(key) =>
  }

  lemma ActKeepsInv(w: World, step: Step, lag: nat)
    requires Inv(w, lag)
    ensures Inv(Act(w, step, w.clock, lag), lag)
  {
    hide *;
    match step
    case Lookup(tid, pod, key, again, swr) => LookupKeepsInv(w, tid, pod, key, again, swr, lag);
    case AskL2(tid) => AskL2KeepsInv(w, tid, lag);
    case FillFromL2(tid) => FillFromL2KeepsInv(w, tid, lag);
    case Query(tid, result) => QueryKeepsInv(w, tid, result, lag);
    case FillL1(tid) => FillL1KeepsInv(w, tid, lag);
    case FillL2(tid, stored) => FillL2KeepsInv(w, tid, stored, lag);
    case Join(tid, leader) => JoinKeepsInv(w, tid, leader, lag);
    case Share(tid) => ShareKeepsInv(w, tid, lag);
    case Leave(tid) => JoinKeepsInv(w, tid, 0, lag);
    case _ => OtherStepKeepsInv(w, step, lag);
  }

  lemma {:induction false} RunKeepsInv(steps: seq<(Step, int)>, lag: nat)
    ensures Inv(Run(steps, lag), lag)
  {
    if steps != [] {
      var before := Run(steps[..|steps| - 1], lag);
      var (step, now) := steps[|steps| - 1];
      RunKeepsInv(steps[..|steps| - 1], lag);
      hide Inv, Act;
      if before.clock <= now {
        AdvanceClock(before, now, lag);
        ActKeepsInv(before.(clock := now), step, lag);
      }
    }
  }

  /**
   * Bounded staleness, in every interleaving of readers, refreshes, janitors, evictions and lost Redis keys on any
   * number of pods: what a read returns at time t was returned by ClickHouse, for that same key, no earlier than
   * t - (six minutes + 2 * lag), however often it moved between the tiers.
   */
  lemma BoundedStaleness(steps: seq<(Step, int)>, lag: nat, a: Answer)
    requires a in Run(steps, lag).answers
    ensures exists q :: Returned(a.key, a.value, q) in Run(steps, lag).log
                        && a.at - (360_000_000_000 + 2 * lag) <= q <= a.at
  {
    var w := Run(steps, lag);
    RunKeepsInv(steps, lag);
    var i :| 0 <= i < |w.answers| && w.answers[i] == a;
    assert RecentEnough(w.log, w.answers[i], L1Age(lag));
  }

  lemma {:induction false} LogGrows(w: World, steps: seq<(Step, int)>, lag: nat)
    ensures w.log <= After(w, steps, lag).log && w.clock <= After(w, steps, lag).clock
  {
    if steps != [] {
      var front := After(w, steps[..|steps| - 1], lag);
      LogGrows(w, steps[..|steps| - 1], lag);
      NextGrows(front, steps[|steps| - 1].0, steps[|steps| - 1].1, lag);
    }
  }

  lemma NextGrows(w: World, step: Step, now: int, lag: nat)
    ensures w.log <= Next(w, step, now, lag).log && w.clock <= Next(w, step, now, lag).clock
  {
    hide AfterGet, SetL1, Swept;
  }

  /**
   * Lookup reads the map and the clock at once. When other steps come between the two, the entry may have been replaced,
   * dropped or swept meanwhile; what is served if it has not expired is still within the bound.
   */
  lemma DelayedCheckIsBounded(before: seq<(Step, int)>, between: seq<(Step, int)>, lag: nat, pod: nat, key: string, now: int)
    requires key in Pod(Run(before, lag), pod).entries
    requires Run(before + between, lag).clock <= now && !Pod(Run(before, lag), pod).entries[key].IsExpired(now)
    ensures RecentEnough(Run(before + between, lag).log, Answer(key, Pod(Run(before, lag), pod).entries[key].value, now), L1Age(lag))
  {
    var w := Run(before, lag);
    RunKeepsInv(before, lag);
    RunKeepsInv(before + between, lag);
    PodSound(w, pod, lag);
    RunIsAfter(before, between, lag);
    LogGrows(w, between, lag);
    var z, e := Run(before + between, lag), Pod(w, pod).entries[key];
    LogIsPast(z, lag);
    hide Run, After, Inv;
    GrowBacked(w.log, z.log, key, e.value, e.expiresAt, L1Age(lag));
    BackedIsRecent(z.log, key, e.value, e.expiresAt, L1Age(lag), now, L1Age(lag));
  }

  lemma RunSnoc(steps: seq<(Step, int)>, step: Step, now: int, lag: nat)
    ensures Run(steps + [(step, now)], lag) == Next(Run(steps, lag), step, now, lag)
  {
    assert (steps + [(step, now)])[..|steps|] == steps;
  }

  function After(w: World, steps: seq<(Step, int)>, lag: nat): World {
    if steps == [] then w
    else Next(After(w, steps[..|steps| - 1], lag), steps[|steps| - 1].0, steps[|steps| - 1].1, lag)
  }

  lemma AfterSnoc(w: World, steps: seq<(Step, int)>, step: Step, now: int, lag: nat)
    ensures After(w, steps + [(step, now)], lag) == Next(After(w, steps, lag), step, now, lag)
  {
    assert (steps + [(step, now)])[..|steps|] == steps;
  }

  lemma {:induction false} RunIsAfter(before: seq<(Step, int)>, steps: seq<(Step, int)>, lag: nat)
    ensures Run(before + steps, lag) == After(Run(before, lag), steps, lag)
  {
    if steps == [] {
      assert before + steps == before;
    } else {
      var front, last := steps[..|steps| - 1], steps[|steps| - 1];
      RunIsAfter(before, front, lag);
      hide Run, After, Next;
      assert before + steps == (before + front) + [last] && steps == front + [last];
      RunSnoc(before + front, last.0, last.1, lag);
      AfterSnoc(Run(before, lag), front, last.0, last.1, lag);
    }
  }

  lemma {:induction false} AfterAfter(w: World, first: seq<(Step, int)>, steps: seq<(Step, int)>, lag: nat)
    ensures After(w, first + steps, lag) == After(After(w, first, lag), steps, lag)
  {
    if steps == [] {
      assert first + steps == first;
    } else {
      var front, last := steps[..|steps| - 1], steps[|steps| - 1];
      AfterAfter(w, first, front, lag);
      hide After, Next;
      assert first + steps == (first + front) + [last] && steps == front + [last];
      AfterSnoc(w, first + front, last.0, last.1, lag);
      AfterSnoc(After(w, first, lag), front, last.0, last.1, lag);
    }
  }

  lemma AfterOne(w: World, step: Step, now: int, lag: nat)
    ensures After(w, [(step, now)], lag) == Next(w, step, now, lag)
  {
    AfterSnoc(w, [], step, now, lag);
    assert [] + [(step, now)] == [(step, now)];
  }

  lemma AfterTwo(w: World, a: Step, t: int, b: Step, u: int, lag: nat)
    ensures After(w, [(a, t), (b, u)], lag) == Next(Next(w, a, t, lag), b, u, lag)
  {
    AfterOne(w, a, t, lag);
    AfterSnoc(w, [(a, t)], b, u, lag);
    assert [(a, t)] + [(b, u)] == [(a, t), (b, u)];
  }

  // ---------------------------------------------------------------- one read without interruption

  /**
   * The clock readings of a read: at L1 (for the two expiry checks), at Redis, before the refill of L1 from Redis, when
   * ClickHouse answers, before the two cache writes that follow.
   */
  datatype Readings = Readings(l1: int, again: int, l2: int, fill: int, q: int, put1: int, put2: int)

  predicate Timely(at: Readings, lag: nat) {
    at.l1 <= at.l2 <= at.fill <= at.l2 + lag && at.l2 <= at.q <= at.put1 <= at.put2 <= at.q + lag
  }

  datatype Tiers = Tiers(l1: State, l2: map<string, Cell>, log: Log)

  /** `at` is when the read returns. */
  datatype ReadResult = ReadResult(tiers: Tiers, answer: Option<Bytes>, at: int, refresh: bool)

  /** A read of `key`; `result` is what ClickHouse, or the wrappers in front of it, would answer. */
  function AfterRead(t: Tiers, key: string, result: Option<Bytes>, at: Readings): ReadResult {
    var (s, r) := AfterGet(t.l1, key, at.l1, at.again);
    match r
    case Hit(value, needsRefresh) => ReadResult(t.(l1 := s), Some(value), at.l1, needsRefresh)
    case Miss => AfterMiss(t.(l1 := s), key, result, at)
  }

  /** After a miss in L1: Redis, with a refill of L1, or else ClickHouse, with both tiers filled. */
  function AfterMiss(t: Tiers, key: string, result: Option<Bytes>, at: Readings): ReadResult {
    if key in t.l2 && at.l2 <= t.l2[key].expireAt then
      var value := t.l2[key].value;
      ReadResult(t.(l1 := SetL1(t.l1, key, value, at.fill)), Some(value), at.fill, false)
    else
      match result
      case None => ReadResult(t, None, at.q, false)
      case Some(value) =>
        ReadResult(Tiers(SetL1(t.l1, key, value, at.put1), t.l2[key := Cell(value, at.put2 + L2_TTL)],
                         t.log + {Returned(key, value, at.q)}),
                   result, at.put2, false)
  }

  function AnswerTo(key: string, r: ReadResult): seq<Answer> {
    if r.answer.Some? then [Answer(key, r.answer.value, r.at)] else []
  }

  /** The world after a read by `pod`. */
  function WorldAfterRead(w: World, pod: nat, key: string, r: ReadResult): World {
    World(w.pods[pod := r.tiers.l1], r.tiers.l2, w.flights, r.tiers.log, w.answers + AnswerTo(key, r), r.at)
  }

  /** After a miss in L1, a hit in Redis. */
  lemma FromL2(w: World, tid: nat, pod: nat, key: string, at: Readings, lag: nat)
    requires tid in w.flights && w.flights[tid] == MissedL1(pod, key) && w.clock == at.l1 && Timely(at, lag)
    requires key in w.l2 && at.l2 <= w.l2[key].expireAt
    ensures var value := w.l2[key].value;
            Next(Next(w, AskL2(tid), at.l2, lag), FillFromL2(tid), at.fill, lag)
            == World(w.pods[pod := SetL1(Pod(w, pod), key, value, at.fill)], w.l2, w.flights - {tid}, w.log,
                     w.answers + [Answer(key, value, at.fill)], at.fill)
  {
    hide AfterGet, SetL1;
    var w1 := Next(w, AskL2(tid), at.l2, lag);
    assert w1 == w.(clock := at.l2, flights := w.flights[tid := ReadL2(pod, key, w.l2[key].value, at.l2)]);
    assert w1.flights - {tid} == w.flights - {tid};
  }

  /** After misses in both caches, a query that fails. */
  lemma QueryFails(w: World, tid: nat, pod: nat, key: string, at: Readings, lag: nat)
    requires tid in w.flights && w.flights[tid] == MissedL1(pod, key) && w.clock == at.l1 && Timely(at, lag)
    requires !(key in w.l2 && at.l2 <= w.l2[key].expireAt)
    ensures Next(Next(w, AskL2(tid), at.l2, lag), Query(tid, None), at.q, lag)
            == w.(flights := w.flights - {tid}, clock := at.q)
  {
    hide AfterGet, SetL1;
    var w1 := Next(w, AskL2(tid), at.l2, lag);
    assert w1 == w.(clock := at.l2, flights := w.flights[tid := Asking(pod, key)]);
    assert w1.flights - {tid} == w.flights - {tid};
  }

  lemma QuerySucceeds(w: World, tid: nat, pod: nat, key: string, value: Bytes, at: Readings, lag: nat)
    requires tid in w.flights && w.flights[tid] == MissedL1(pod, key) && w.clock == at.l1 && Timely(at, lag)
    requires !(key in w.l2 && at.l2 <= w.l2[key].expireAt)
    ensures Next(Next(w, AskL2(tid), at.l2, lag), Query(tid, Some(value)), at.q, lag)
            == w.(flights := w.flights[tid := Got(pod, key, value, at.q, true)], clock := at.q,
                  log := w.log + {Returned(key, value, at.q)})
  {
    hide AfterGet, SetL1;
    var w1 := Next(w, AskL2(tid), at.l2, lag);
    assert w1 == w.(clock := at.l2, flights := w.flights[tid := Asking(pod, key)]);
  }

  /** The two cache writes after a query, and the return of the single-flight call. */
  lemma FillTiers(w: World, tid: nat, pod: nat, key: string, value: Bytes, at: Readings, lag: nat)
    requires tid in w.flights && w.flights[tid] == Got(pod, key, value, at.q, true) && w.clock == at.q && Timely(at, lag)
    ensures Next(Next(Next(w, FillL1(tid), at.put1, lag), FillL2(tid, true), at.put2, lag), Leave(tid), at.put2, lag)
            == World(w.pods[pod := SetL1(Pod(w, pod), key, value, at.put1)], w.l2[key := Cell(value, at.put2 + L2_TTL)],
                     w.flights - {tid}, w.log, w.answers + [Answer(key, value, at.put2)], at.put2)
  {
    hide AfterGet, SetL1;
    var w1 := Next(w, FillL1(tid), at.put1, lag);
    assert w1.flights == w.flights[tid := FilledL1(pod, key, value, at.q, true)];
    var w2 := Next(w1, FillL2(tid, true), at.put2, lag);
    assert w2.flights == w1.flights[tid := Released(pod, key, value, at.q)];
    assert w2.flights - {tid} == w.flights - {tid};
  }

  lemma LookupStep(w: World, tid: nat, pod: nat, key: string, at: Readings, lag: nat)
    requires tid !in w.flights && w.clock <= at.l1
    ensures var (s, r) := AfterGet(Pod(w, pod), key, at.l1, at.again);
            Next(w, Lookup(tid, pod, key, at.again, None), at.l1, lag)
            == match r
               case Hit(value, _) =>
                 w.(pods := w.pods[pod := s], answers := w.answers + [Answer(key, value, at.l1)], clock := at.l1)
               case Miss =>
                 w.(pods := w.pods[pod := s], flights := w.flights[tid := MissedL1(pod, key)], clock := at.l1)
  {
    hide AfterGet;
  }

  /** The world between the miss in L1 and the end of the read. */
  function Missed(w: World, tid: nat, pod: nat, key: string, s: State, now: int): World {
    w.(pods := w.pods[pod := s], flights := w.flights[tid := MissedL1(pod, key)], clock := now)
  }

  lemma QuerySteps(w: World, tid: nat, pod: nat, key: string, s: State, value: Bytes, at: Readings, lag: nat)
    returns (steps: seq<(Step, int)>)
    requires tid !in w.flights && Timely(at, lag) && !(key in w.l2 && at.l2 <= w.l2[key].expireAt)
    ensures After(Missed(w, tid, pod, key, s, at.l1), steps, lag)
            == World(w.pods[pod := SetL1(s, key, value, at.put1)], w.l2[key := Cell(value, at.put2 + L2_TTL)], w.flights,
                     w.log + {Returned(key, value, at.q)}, w.answers + [Answer(key, value, at.put2)], at.put2)
  {
    hide After, Next, SetL1;
    var w1 := Missed(w, tid, pod, key, s, at.l1);
    var first := [(AskL2(tid), at.l2), (Query(tid, Some(value)), at.q)];
    var fills := [(FillL1(tid), at.put1), (FillL2(tid, true), at.put2)];
    QuerySucceeds(w1, tid, pod, key, value, at, lag);
    AfterTwo(w1, AskL2(tid), at.l2, Query(tid, Some(value)), at.q, lag);
    var w2 := After(w1, first, lag);
    FillTiers(w2, tid, pod, key, value, at, lag);
    AfterTwo(w2, FillL1(tid), at.put1, FillL2(tid, true), at.put2, lag);
    AfterSnoc(w2, fills, Leave(tid), at.put2, lag);
    AfterAfter(w1, first, fills + [(Leave(tid), at.put2)], lag);
    assert w2.flights - {tid} == w.flights;
    assert w2.pods[pod := SetL1(s, key, value, at.put1)] == w.pods[pod := SetL1(s, key, value, at.put1)];
    steps := first + (fills + [(Leave(tid), at.put2)]);
  }

  /** From the miss in L1 to the end. */
  lemma MissSteps(w: World, tid: nat, pod: nat, key: string, s: State, result: Option<Bytes>, at: Readings, lag: nat)
    returns (steps: seq<(Step, int)>)
    requires tid !in w.flights && w.clock <= at.l1 && Timely(at, lag)
    ensures After(Missed(w, tid, pod, key, s, at.l1), steps, lag)
            == WorldAfterRead(w, pod, key, AfterMiss(Tiers(s, w.l2, w.log), key, result, at))
  {
    hide After, Next, SetL1;
    var w1 := Missed(w, tid, pod, key, s, at.l1);
    assert w1.flights - {tid} == w.flights;
    if key in w.l2 && at.l2 <= w.l2[key].expireAt {
      FromL2(w1, tid, pod, key, at, lag);
      AfterTwo(w1, AskL2(tid), at.l2, FillFromL2(tid), at.fill, lag);
      steps := [(AskL2(tid), at.l2), (FillFromL2(tid), at.fill)];
    } else if result.None? {
      QueryFails(w1, tid, pod, key, at, lag);
      AfterTwo(w1, AskL2(tid), at.l2, Query(tid, None), at.q, lag);
      steps := [(AskL2(tid), at.l2), (Query(tid, None), at.q)];
    } else {
      steps := QuerySteps(w, tid, pod, key, s, result.value, at, lag);
    }
  }

  /** The read as one call is a run of its steps that nothing interleaves with. */
  lemma ReadIsSteps(w: World, tid: nat, pod: nat, key: string, result: Option<Bytes>, at: Readings, lag: nat)
    returns (steps: seq<(Step, int)>)
    requires tid !in w.flights && w.clock <= at.l1 && Timely(at, lag)
    ensures After(w, steps, lag) == WorldAfterRead(w, pod, key, AfterRead(Tiers(Pod(w, pod), w.l2, w.log), key, result, at))
  {
    hide After, Next, AfterGet, SetL1, AfterMiss;
    var look := [(Lookup(tid, pod, key, at.again, None), at.l1)];
    LookupStep(w, tid, pod, key, at, lag);
    AfterOne(w, Lookup(tid, pod, key, at.again, None), at.l1, lag);
    var (s, r) := AfterGet(Pod(w, pod), key, at.l1, at.again);
    if r.Hit? {
      steps := look;
    } else {
      var more := MissSteps(w, tid, pod, key, s, result, at, lag);
      AfterAfter(w, look, more, lag);
      steps := look + more;
    }
  }

  // ---------------------------------------------------------------- refreshes

  /** A stale hit serves at once and, if nobody is refreshing the key, starts a refresh in the background. */
  lemma StaleHitRefreshes(w: World, tid: nat, pod: nat, key: string, now: int, again: int, helper: nat, lag: nat)
    requires tid !in w.flights && helper !in w.flights && w.clock <= now
    requires key in Pod(w, pod).entries
    requires var e := Pod(w, pod).entries[key]; now <= e.expiresAt && e.staleAt < again < e.expiresAt
    ensures var z := Next(w, Lookup(tid, pod, key, again, Some(helper)), now, lag);
            && z.answers == w.answers + [Answer(key, Pod(w, pod).entries[key].value, now)]
            && z.flights == (if key in Pod(w, pod).revalidating then w.flights else w.flights[helper := Refreshing(pod, key)])
            && key in Pod(z, pod).revalidating
  {
  }

  /** A caller that joined another's query gets the same value when that call has filled both tiers. */
  lemma FollowerIsAnswered(w: World, tid: nat, leader: nat, value: Bytes, q: int, now: int, lag: nat)
    requires tid in w.flights && leader in w.flights && w.flights[tid].Waiting? && w.flights[tid].leader == leader
    requires w.flights[leader] == Released(w.flights[tid].pod, w.flights[tid].key, value, q) && w.clock <= now <= q + lag
    ensures Next(w, Share(tid), now, lag)
            == w.(flights := w.flights - {tid}, answers := w.answers + [Answer(w.flights[tid].key, value, now)], clock := now)
  {
  }

  /** A caller joins another caller's query that is still under way for the same key on its pod, and nothing else. */
  lemma CallersJoin(w: World, tid: nat, leader: nat, now: int, lag: nat)
    requires tid in w.flights && leader in w.flights && w.flights[tid].Asking? && w.clock <= now
    ensures var f, g := w.flights[tid], w.flights[leader];
            var underWay := g.Asking? || (g.Got? && g.asked) || (g.FilledL1? && g.asked);
            Next(w, Join(tid, leader), now, lag).flights
            == if underWay && g.pod == f.pod && g.key == f.key then w.flights[tid := Waiting(f.pod, f.key, leader)] else w.flights
  {
  }

  /** A refresh can be started at any time. */
  lemma AnyoneMayRefresh(w: World, tid: nat, pod: nat, key: string, now: int, lag: nat)
    requires tid !in w.flights && w.clock <= now
    ensures Next(w, ElectLate(tid, pod, key), now, lag) == w.(flights := w.flights[tid := Refreshing(pod, key)], clock := now)
  {
  }

  /** What a tier keeps of a value: L1 for a minute, stale after three quarters of it, Redis for five minutes. */
  lemma Lifetimes(s: State, key: string, value: Bytes, now: int)
    ensures var e := SetL1(s, key, value, now).entries[key];
            && (forall t :: e.IsExpired(t) <==> t - now > 60_000_000_000)
            && (forall t :: e.IsStale(t) <==> 45_000_000_000 < t - now < 60_000_000_000)
            && key !in SetL1(s, key, value, now).revalidating
    ensures L2_TTL == 300_000_000_000
  {
  }

  /** refreshEventCount: the tiers when it is done, and whether the value is logged. */
  function AfterRefresh(t: Tiers, key: string, result: Option<Bytes>, q: int, put1: int, put2: int): Tiers {
    match result
    case None => t.(l1 := ClearFlag(Drop(t.l1, key), key))
    case Some(value) =>
      Tiers(SetL1(t.l1, key, value, put1), t.l2[key := Cell(value, put2 + L2_TTL)], t.log + {Returned(key, value, q)})
  }

  lemma RefreshFails(w: World, tid: nat, pod: nat, key: string, q: int, lag: nat)
    requires tid in w.flights && w.flights[tid] == Refreshing(pod, key) && w.clock <= q
    ensures Next(Next(w, Query(tid, None), q, lag), DeleteStale(tid), q, lag)
            == w.(pods := w.pods[pod := ClearFlag(Drop(Pod(w, pod), key), key)], flights := w.flights - {tid}, clock := q)
  {
    var w1 := Next(w, Query(tid, None), q, lag);
    assert w1.flights - {tid} == w.flights - {tid};
    hide AfterGet, SetL1;
  }

  lemma RefreshSucceeds(w: World, tid: nat, pod: nat, key: string, value: Bytes, q: int, put1: int, put2: int, lag: nat)
    requires tid in w.flights && w.flights[tid] == Refreshing(pod, key) && w.clock <= q <= put1 <= put2 <= q + lag
    ensures Next(Next(Next(w, Query(tid, Some(value)), q, lag), FillL1(tid), put1, lag), FillL2(tid, true), put2, lag)
            == World(w.pods[pod := SetL1(Pod(w, pod), key, value, put1)], w.l2[key := Cell(value, put2 + L2_TTL)],
                     w.flights - {tid}, w.log + {Returned(key, value, q)}, w.answers, put2)
  {
    hide AfterGet, SetL1;
    var w1 := Next(w, Query(tid, Some(value)), q, lag);
    assert w1.flights == w.flights[tid := Got(pod, key, value, q, false)];
    var w2 := Next(w1, FillL1(tid), put1, lag);
    assert w2.flights - {tid} == w.flights - {tid};
  }

  /** The refresh as one call is a run of its steps that nothing interleaves with. */
  lemma RefreshIsSteps(w: World, tid: nat, pod: nat, key: string, result: Option<Bytes>, q: int, put1: int, put2: int, lag: nat)
    returns (steps: seq<(Step, int)>)
    requires tid in w.flights && w.flights[tid] == Refreshing(pod, key) && w.clock <= q <= put1 <= put2 <= q + lag
    ensures var t, z := AfterRefresh(Tiers(Pod(w, pod), w.l2, w.log), key, result, q, put1, put2), After(w, steps, lag);
            z == World(w.pods[pod := t.l1], t.l2, w.flights - {tid}, t.log, w.answers, if result.Some? then put2 else q)
  {
    hide After, Next, SetL1;
    match result
    case None =>
      RefreshFails(w, tid, pod, key, q, lag);
      AfterTwo(w, Query(tid, None), q, DeleteStale(tid), q, lag);
      steps := [(Query(tid, None), q), (DeleteStale(tid), q)];
    case Some(value) =>
      RefreshSucceeds(w, tid, pod, key, value, q, put1, put2, lag);
      AfterTwo(w, Query(tid, result), q, FillL1(tid), put1, lag);
      AfterSnoc(w, [(Query(tid, result), q), (FillL1(tid), put1)], FillL2(tid, true), put2, lag);
      steps := [(Query(tid, result), q), (FillL1(tid), put1)] + [(FillL2(tid, true), put2)];
  }

  /** After a failed refresh the next read misses in L1 and may elect a refresher again. */
  lemma FailedRefreshIsMissed(t: Tiers, key: string, q: int, now: int, again: int)
    ensures var z := AfterRefresh(t, key, None, q, q, q);
            AfterGet(z.l1, key, now, again).1 == Miss && key !in z.l1.revalidating && z.l2 == t.l2 && z.log == t.log
  {
  }

  // ---------------------------------------------------------------- the bound is reached

  function Instant(now: int): Readings {
    Readings(now, now, now, now, now, now, now)
  }

  function ReadAt(w: World, pod: nat, key: string, result: Option<Bytes>, now: int): World {
    WorldAfterRead(w, pod, key, AfterRead(Tiers(Pod(w, pod), w.l2, w.log), key, result, Instant(now)))
  }

  /** A read whose steps all happen at once, after a run with nothing in flight. */
  lemma OneRead(before: seq<(Step, int)>, pod: nat, key: string, result: Option<Bytes>, now: int)
    returns (steps: seq<(Step, int)>)
    requires Run(before, 0).flights == map[] && Run(before, 0).clock <= now
    ensures Run(steps, 0) == ReadAt(Run(before, 0), pod, key, result, now)
  {
    var more := ReadIsSteps(Run(before, 0), 0, pod, key, result, Instant(now), 0);
    RunIsAfter(before, more, 0);
    steps := before + more;
  }

  /**
   * The bound is reached, so neither tier's own expiry bounds what readers see: one pod queries at time 0, a second pod
   * copies the value out of Redis in its last moment and serves it for another L1_TTL.
   */
  lemma StalenessBoundIsReached(key: string, v: Bytes) returns (steps: seq<(Step, int)>)
    ensures Answer(key, v, 360_000_000_000) in Run(steps, 0).answers
    ensures Run(steps, 0).log == {Returned(key, v, 0)}
  {
    assert Run([], 0) == START;
    hide Run;
    steps := OneRead([], 0, key, Some(v), 0);
    var w1 := Run(steps, 0);
    assert w1.l2 == map[key := Cell(v, L2_TTL)] && 1 !in w1.pods && w1.log == {Returned(key, v, 0)};
    steps := OneRead(steps, 1, key, None, L2_TTL);
    var w2 := Run(steps, 0);
    assert Pod(w2, 1).entries == map[key := NewEntry(v, L1_TTL, L1_STALE, L2_TTL)] && w2.log == w1.log;
    steps := OneRead(steps, 1, key, None, L2_TTL + L1_TTL);
    var answers := Run(steps, 0).answers;
    assert answers == w2.answers + [Answer(key, v, L2_TTL + L1_TTL)];
    assert answers[|answers| - 1] == Answer(key, v, L2_TTL + L1_TTL);
  }

  // ---------------------------------------------------------------- the query service of one pod

  class Redis {
    var cells: map<string, Cell>

    constructor ()
      ensures cells == map[]
    {
      cells := map[];
    }
  }

  class Service {
    const l1: L1Cache
    const redis: Redis

    ghost predicate Valid(log: Log, lag: nat)
      reads this, l1, redis
    {
      l1.Valid() && L1Backed(log, l1.entries, L1Age(lag)) && L2Backed(log, redis.cells, L2Age(lag))
    }

    constructor (l1: L1Cache, redis: Redis)
      ensures this.l1 == l1 && this.redis == redis
    {
      this.l1, this.redis := l1, redis;
    }

    /**
     * The read path of EventCount, DAU and Funnel. `refresh` asks for a background refresh; only EventCount heeds it.
     */
    method Read(key: string, result: Option<Bytes>, at: Readings, ghost log: Log, ghost lag: nat)
      returns (answer: Option<Bytes>, refresh: bool, ghost log': Log)
      requires Valid(log, lag) && LogPast(log, at.l1) && Timely(at, lag)
      modifies l1, redis
      ensures Valid(log', lag)
      ensures var r := AfterRead(Tiers(old(l1.Snapshot()), old(redis.cells), log), key, result, at);
              && Tiers(l1.Snapshot(), redis.cells, log') == r.tiers && answer == r.answer && refresh == r.refresh
              && (answer.Some? ==> RecentEnough(log', Answer(key, answer.value, r.at), L1Age(lag)))
      ensures var inL1 := key in old(l1.entries) && at.l1 <= old(l1.entries)[key].expiresAt;
              && (inL1 ==> answer == Some(old(l1.entries)[key].value) && l1.entries == old(l1.entries))
              && (!inL1 && key in old(redis.cells) && at.l2 <= old(redis.cells)[key].expireAt ==>
                    answer == Some(old(redis.cells)[key].value))
              && (!inL1 && !(key in old(redis.cells) && at.l2 <= old(redis.cells)[key].expireAt) ==> answer == result)
              && (refresh <==> inL1 && key !in old(l1.revalidating)
                               && old(l1.entries)[key].staleAt < at.again < old(l1.entries)[key].expiresAt)
      ensures AfterGet(old(l1.Snapshot()), key, at.l1, at.again).1.Miss?
              && key in old(redis.cells) && at.l2 <= old(redis.cells)[key].expireAt ==>
                answer.Some? && RecentEnough(log, Answer(key, answer.value, at.l2), L2Age(lag))
    {
      var r := l1.Get(key, at.l1, at.again);
      match r
      case Hit(value, needsRefresh) =>
        BackedIsRecent(log, key, value, old(l1.entries)[key].expiresAt, L1Age(lag), at.l1, L1Age(lag));
        return Some(value), needsRefresh, log;
      case Miss =>
        refresh := false;
        answer, log' := ReadBehindL1(key, result, at, log, lag);
    }

    /** The rest of a read that missed in L1. */
    method ReadBehindL1(key: string, result: Option<Bytes>, at: Readings, ghost log: Log, ghost lag: nat)
      returns (answer: Option<Bytes>, ghost log': Log)
      requires Valid(log, lag) && LogPast(log, at.l1) && Timely(at, lag)
      modifies l1, redis
      ensures Valid(log', lag)
      ensures var r := AfterMiss(Tiers(old(l1.Snapshot()), old(redis.cells), log), key, result, at);
              && Tiers(l1.Snapshot(), redis.cells, log') == r.tiers && answer == r.answer && !r.refresh
              && (answer.Some? ==> RecentEnough(log', Answer(key, answer.value, r.at), L1Age(lag)))
      ensures key in old(redis.cells) && at.l2 <= old(redis.cells)[key].expireAt ==>
                answer.Some? && RecentEnough(log, Answer(key, answer.value, at.l2), L2Age(lag))
    {
      hide AfterGet, SetL1;
      if key in redis.cells && at.l2 <= redis.cells[key].expireAt {
        var value := redis.cells[key].value;
        BackedIsRecent(log, key, value, redis.cells[key].expireAt, L2Age(lag), at.l2, L2Age(lag));
        BackedIsRecent(log, key, value, redis.cells[key].expireAt, L2Age(lag), at.fill, L1Age(lag));
        Refill(key, value, at.fill, log, lag);
        return Some(value), log;
      }
      match result
      case None => return None, log;
      case Some(value) =>
        log' := log + {Returned(key, value, at.q)};
        GrowTiers(log, log', l1.entries, redis.cells, lag);
        Populate(key, value, at.q, at.put1, at.put2, log', lag);
        assert Returned(key, value, at.q) in log';
        return result, log';
    }

    /** A value from Redis goes into L1 for a full L1_TTL. */
    method Refill(key: string, value: Bytes, now: int, ghost log: Log, ghost lag: nat)
      requires Valid(log, lag) && Backed(log, key, value, now + L1_TTL, L1Age(lag))
      modifies l1
      ensures Valid(log, lag) && l1.Snapshot() == SetL1(old(l1.Snapshot()), key, value, now)
    {
      l1.Set(key, value, L1_TTL, L1_STALE, now);
    }

    /** populateCaches. */
    method Populate(key: string, value: Bytes, ghost q: int, put1: int, put2: int, ghost log: Log, ghost lag: nat)
      requires Valid(log, lag) && Returned(key, value, q) in log && put1 <= put2 <= q + lag
      modifies l1, redis
      ensures Valid(log, lag)
      ensures l1.Snapshot() == SetL1(old(l1.Snapshot()), key, value, put1)
      ensures redis.cells == old(redis.cells)[key := Cell(value, put2 + L2_TTL)]
    {
      assert put1 + L1_TTL <= q + L1Age(lag) && put2 + L2_TTL <= q + L2Age(lag);
      l1.Set(key, value, L1_TTL, L1_STALE, put1);
      redis.cells := redis.cells[key := Cell(value, put2 + L2_TTL)];
    }

    /** refreshEventCount: on success like a query, on failure the L1 entry goes so that the next reader asks again. */
    method Refresh(key: string, result: Option<Bytes>, q: int, put1: int, put2: int, ghost log: Log, ghost lag: nat)
      returns (ghost log': Log)
      requires Valid(log, lag) && q <= put1 <= put2 <= q + lag
      modifies l1, redis
      ensures Valid(log', lag)
      ensures Tiers(l1.Snapshot(), redis.cells, log')
              == AfterRefresh(Tiers(old(l1.Snapshot()), old(redis.cells), log), key, result, q, put1, put2)
    {
      match result
      case None =>
        l1.Delete(key);
        log' := log;
      case Some(value) =>
        log' := log + {Returned(key, value, q)};
        GrowTiers(log, log', l1.entries, redis.cells, lag);
        Populate(key, value, q, put1, put2, log', lag);
    }
  }

  lemma GrowTiers(log: Log, more: Log, entries: map<string, Entry>, cells: map<string, Cell>, lag: nat)
    requires log <= more && L1Backed(log, entries, L1Age(lag)) && L2Backed(log, cells, L2Age(lag))
    ensures L1Backed(more, entries, L1Age(lag)) && L2Backed(more, cells, L2Age(lag))
  {
    forall k | k in entries ensures Backed(more, k, entries[k].value, entries[k].expiresAt, L1Age(lag)) {
      GrowBacked(log, more, k, entries[k].value, entries[k].expiresAt, L1Age(lag));
    }
    forall k | k in cells ensures Backed(more, k, cells[k].value, cells[k].expireAt, L2Age(lag)) {
      GrowBacked(log, more, k, cells[k].value, cells[k].expireAt, L2Age(lag));
    }
  }
}
