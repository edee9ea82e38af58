/**
 * The bulkhead (internal/bulkhead/bulkhead.go). Any number of goroutines run Do; every channel operation, counter
 * update and lookup of a semaphore is one step, and steps of different goroutines interleave freely.
 */
module Bulkhead {
  import opened Common

  /** Where a goroutine stands in Do, by what it does next. */
  datatype Pc =
    | Idle
    | Lookup(t: string)           // holds a global slot, about to fetch the tenant's semaphore
    | TryTenant(t: string)
    | RollBack(t: string)         // the tenant is full: about to receive from the global channel
    | CountRejected
    | CountActive(t: string)      // holds both slots
    | Body(t: string)
    | ReleaseTenant(t: string)
    | ReleaseGlobal(t: string)
    | CountReleased

  /** Channel occupancies, counters, goroutines. `defaults` counts the default branches taken by Release. */
  datatype World = World(
    global: int, sems: map<string, int>, active: int, rejected: nat, defaults: nat, threads: seq<Pc>)

  datatype Limits = Limits(perTenant: nat, total: nat)

  /** New substitutes 50 and 500 for limits that are not positive. */
  function NewLimits(maxPerTenant: int, maxGlobal: int): (l: Limits)
    ensures l.perTenant > 0 && (l.perTenant == maxPerTenant || (maxPerTenant <= 0 && l.perTenant == 50))
    ensures l.total > 0 && (l.total == maxGlobal || (maxGlobal <= 0 && l.total == 500))
  {
    Limits(if maxPerTenant <= 0 then 50 else maxPerTenant, if maxGlobal <= 0 then 500 else maxGlobal)
  }

  function Start(n: nat): World {
    World(0, map[], 0, 0, 0, seq(n, _ => Idle))
  }

  function Occupancy(sems: map<string, int>, t: string): int {
    if t in sems then sems[t] else 0
  }

  /** Only the receive of the rollback can block. */
  predicate Enabled(w: World, i: nat) {
    i < |w.threads| && (w.threads[i].RollBack? ==> w.global > 0)
  }

  /** The next step of goroutine `i`; an idle one calls Do for `tenant`. */
  function Next(w: World, i: nat, tenant: string, l: Limits): World
    requires Enabled(w, i)
  {
    match w.threads[i]
    case Idle =>
      if w.global < l.total then w.(global := w.global + 1, threads := w.threads[i := Lookup(tenant)])
      else w.(threads := w.threads[i := CountRejected])
    case Lookup(t) => w.(sems := w.sems[t := Occupancy(w.sems, t)], threads := w.threads[i := TryTenant(t)])
    case TryTenant(t) =>
      if Occupancy(w.sems, t) < l.perTenant
      then w.(sems := w.sems[t := Occupancy(w.sems, t) + 1], threads := w.threads[i := CountActive(t)])
      else w.(threads := w.threads[i := RollBack(t)])
    case RollBack(t) => w.(global := w.global - 1, threads := w.threads[i := CountRejected])
    case CountRejected => w.(rejected := w.rejected + 1, threads := w.threads[i := Idle])
    case CountActive(t) => w.(active := w.active + 1, threads := w.threads[i := Body(t)])
    case Body(t) => w.(sems := w.sems[t := Occupancy(w.sems, t)], threads := w.threads[i := ReleaseTenant(t)])
    case ReleaseTenant(t) =>
      if Occupancy(w.sems, t) > 0
      then w.(sems := w.sems[t := Occupancy(w.sems, t) - 1], threads := w.threads[i := ReleaseGlobal(t)])
      else w.(defaults := w.defaults + 1, threads := w.threads[i := ReleaseGlobal(t)])
    case ReleaseGlobal(t) =>
      if w.global > 0 then w.(global := w.global - 1, threads := w.threads[i := CountReleased])
      else w.(defaults := w.defaults + 1, threads := w.threads[i := CountReleased])
    case CountReleased => w.(active := w.active - 1, threads := w.threads[i := Idle])
  }

  /** A schedule names the goroutine that moves and the tenant it asks for if it is idle. */
  function Run(n: nat, schedule: seq<(nat, string)>, l: Limits): World {
    if schedule == [] then Start(n)
    else
      var w, move := Run(n, schedule[..|schedule| - 1], l), schedule[|schedule| - 1];
      if Enabled(w, move.0) then Next(w, move.0, move.1, l) else w
  }

  // ---------------------------------------------------------------- counting goroutines

  datatype Kind =
    | HoldsGlobal | HoldsTenant(t: string) | HoldsAnyTenant | Transient | InBody | InBodyOf(t: string) | Active | Any

  function Weight(k: Kind, pc: Pc): nat {
    match k
    case HoldsGlobal => if pc.Idle? || pc.CountRejected? || pc.CountReleased? then 0 else 1
    case HoldsTenant(t) => if pc == CountActive(t) || pc == Body(t) || pc == ReleaseTenant(t) then 1 else 0
    case HoldsAnyTenant => if pc.CountActive? || pc.Body? || pc.ReleaseTenant? then 1 else 0
    case Transient => if pc.Lookup? || pc.TryTenant? || pc.RollBack? || pc.ReleaseGlobal? then 1 else 0
    case InBody => if pc.Body? then 1 else 0
    case InBodyOf(t) => if pc == Body(t) then 1 else 0
    case Active => if pc.Body? || pc.ReleaseTenant? || pc.ReleaseGlobal? || pc.CountReleased? then 1 else 0
    case Any => if pc.Idle? then 0 else 1
  }

  function Count(threads: seq<Pc>, k: Kind): nat {
    if threads == [] then 0 else Count(threads[..|threads| - 1], k) + Weight(k, threads[|threads| - 1])
  }

  lemma {:induction false} CountUpdate(threads: seq<Pc>, i: nat, pc: Pc, k: Kind)
    requires i < |threads|
    ensures Count(threads[i := pc], k) == Count(threads, k) - Weight(k, threads[i]) + Weight(k, pc)
  {
    hide Weight;
    var front := threads[..|threads| - 1];
    if i < |front| {
      CountUpdate(front, i, pc, k);
      assert threads[i := pc][..|front|] == front[i := pc];
    } else {
      assert threads[i := pc][..|front|] == front;
    }
  }

  lemma {:induction false} CountAtLeast(threads: seq<Pc>, i: nat, k: Kind)
    requires i < |threads|
    ensures Count(threads, k) >= Weight(k, threads[i])
  {
    hide Weight;
    if i < |threads| - 1 {
      CountAtLeast(threads[..|threads| - 1], i, k);
    }
  }

  lemma {:induction false} CountSplit(threads: seq<Pc>, t: string)
    ensures Count(threads, HoldsGlobal) == Count(threads, HoldsAnyTenant) + Count(threads, Transient)
    ensures Count(threads, InBody) <= Count(threads, HoldsAnyTenant)
    ensures Count(threads, InBodyOf(t)) <= Count(threads, HoldsTenant(t))
    ensures Count(threads, HoldsGlobal) <= Count(threads, Any)
  {
    if threads != [] {
      CountSplit(threads[..|threads| - 1], t);
    }
  }

  lemma {:induction false} CountIdle(threads: seq<Pc>, k: Kind)
    requires forall i :: 0 <= i < |threads| ==> threads[i] == Idle
    ensures Count(threads, k) == 0
  {
    if threads != [] {
      CountIdle(threads[..|threads| - 1], k);
    }
  }

  // ---------------------------------------------------------------- the invariant

  ghost predicate Inv(w: World, l: Limits) {
    && w.global == Count(w.threads, HoldsGlobal) <= l.total
    && w.active == Count(w.threads, Active)
    && (forall t :: Occupancy(w.sems, t) == Count(w.threads, HoldsTenant(t)) <= l.perTenant)
    && w.defaults == 0
  }

  lemma StepKeepsInv(w: World, i: nat, tenant: string, l: Limits)
    requires Inv(w, l) && Enabled(w, i)
    ensures Inv(Next(w, i, tenant, l), l)
  {
    hide Count;
    var pc, w' := w.threads[i], Next(w, i, tenant, l);
    CountUpdate(w.threads, i, w'.threads[i], HoldsGlobal);
    CountUpdate(w.threads, i, w'.threads[i], Active);
    CountAtLeast(w.threads, i, HoldsGlobal);
    if pc.ReleaseTenant? {
      CountAtLeast(w.threads, i, HoldsTenant(pc.t));
    }
    forall t ensures Occupancy(w'.sems, t) == Count(w'.threads, HoldsTenant(t)) <= l.perTenant {
      CountUpdate(w.threads, i, w'.threads[i], HoldsTenant(t));
    }
  }

  lemma {:induction false} RunKeepsInv(n: nat, schedule: seq<(nat, string)>, l: Limits)
    ensures Inv(Run(n, schedule, l), l)
  {
    if schedule == [] {
      forall k ensures Count(Start(n).threads, k) == 0 { CountIdle(Start(n).threads, k); }
    } else {
      RunKeepsInv(n, schedule[..|schedule| - 1], l);
      var w, move := Run(n, schedule[..|schedule| - 1], l), schedule[|schedule| - 1];
      if Enabled(w, move.0) {
        StepKeepsInv(w, move.0, move.1, l);
      }
    }
  }

  /**
   * Safety in every interleaving: at most perTenant bodies run for a tenant and at most total overall, Release never
   * takes a default branch, and no goroutine is ever blocked.
   */
  lemma LimitsHold(n: nat, schedule: seq<(nat, string)>, l: Limits, t: string)
    ensures var w := Run(n, schedule, l);
            && Count(w.threads, InBodyOf(t)) <= l.perTenant
            && Count(w.threads, InBody) <= l.total
            && w.defaults == 0
            && (forall i :: 0 <= i < |w.threads| ==> Enabled(w, i))
  {
    hide Count;
    var w := Run(n, schedule, l);
    RunKeepsInv(n, schedule, l);
    CountSplit(w.threads, t);
    assert Occupancy(w.sems, t) <= l.perTenant;
    forall i | 0 <= i < |w.threads| ensures Enabled(w, i) {
      CountAtLeast(w.threads, i, HoldsGlobal);
    }
  }

  /** With no goroutine in flight every channel is empty and the active counter is zero. */
  lemma QuietIsEmpty(n: nat, schedule: seq<(nat, string)>, l: Limits)
    requires forall i :: 0 <= i < |Run(n, schedule, l).threads| ==> Run(n, schedule, l).threads[i] == Idle
    ensures var w := Run(n, schedule, l); w.global == 0 && w.active == 0 && forall t :: Occupancy(w.sems, t) == 0
  {
    var w := Run(n, schedule, l);
    RunKeepsInv(n, schedule, l);
    forall k ensures Count(w.threads, k) == 0 { CountIdle(w.threads, k); }
  }

  // ---------------------------------------------------------------- what the global channel counts

  function TenantOf(pc: Pc): Option<string> {
    match pc
    case CountActive(t) => Some(t)
    case Body(t) => Some(t)
    case ReleaseTenant(t) => Some(t)
    case _ => None
  }

  ghost predicate ListsTenants(threads: seq<Pc>, tenants: seq<string>) {
    forall i :: 0 <= i < |threads| && TenantOf(threads[i]).Some? ==> TenantOf(threads[i]).value in tenants
  }

  function SumOccupancy(sems: map<string, int>, tenants: seq<string>): int {
    if tenants == [] then 0
    else SumOccupancy(sems, tenants[..|tenants| - 1]) + Occupancy(sems, tenants[|tenants| - 1])
  }

  function SumCounts(threads: seq<Pc>, tenants: seq<string>): nat {
    if tenants == [] then 0
    else SumCounts(threads, tenants[..|tenants| - 1]) + Count(threads, HoldsTenant(tenants[|tenants| - 1]))
  }

  /** Whether a goroutine holds a slot of one of these tenants. */
  function HoldsOneOf(pc: Pc, tenants: seq<string>): nat {
    if TenantOf(pc).Some? && TenantOf(pc).value in tenants then 1 else 0
  }

  lemma HoldsOneMore(pc: Pc, rest: seq<string>, t: string)
    requires t !in rest
    ensures HoldsOneOf(pc, rest + [t]) == HoldsOneOf(pc, rest) + Weight(HoldsTenant(t), pc)
  {
  }

  lemma SumCountsUnfold(threads: seq<Pc>, rest: seq<string>, t: string)
    ensures SumCounts(threads, rest + [t]) == SumCounts(threads, rest) + Count(threads, HoldsTenant(t))
  {
    hide Count;
    assert (rest + [t])[..|rest|] == rest;
  }

  lemma {:induction false} SumCountsSnoc(front: seq<Pc>, pc: Pc, tenants: seq<string>)
    requires Distinct(tenants)
    ensures SumCounts(front + [pc], tenants) == SumCounts(front, tenants) + HoldsOneOf(pc, tenants)
  {
    if tenants != [] {
      var rest, t := tenants[..|tenants| - 1], tenants[|tenants| - 1];
      LastIsNew(tenants);
      hide Count, SumCounts, HoldsOneOf, Weight, Distinct;
      assert tenants == rest + [t];
      DistinctFront(rest, t);
      SumCountsSnoc(front, pc, rest);
      SumCountsUnfold(front, rest, t);
      SumCountsUnfold(front + [pc], rest, t);
      CountSnoc(front, pc, HoldsTenant(t));
      HoldsOneMore(pc, rest, t);
    }
  }

  lemma DistinctFront(rest: seq<string>, t: string)
    ensures Distinct(rest + [t]) ==> Distinct(rest)
  {
    assert (rest + [t])[..|rest|] == rest;
  }

  lemma CountSnoc(front: seq<Pc>, pc: Pc, k: Kind)
    ensures Count(front + [pc], k) == Count(front, k) + Weight(k, pc)
  {
    assert (front + [pc])[..|front|] == front;
  }

  lemma {:induction false} SumCountsNil(tenants: seq<string>)
    ensures SumCounts([], tenants) == 0
  {
    if tenants != [] { SumCountsNil(tenants[..|tenants| - 1]); }
  }

  lemma {:induction false} SumIsAnyTenant(threads: seq<Pc>, tenants: seq<string>)
    requires Distinct(tenants)
    requires ListsTenants(threads, tenants)
    ensures SumCounts(threads, tenants) == Count(threads, HoldsAnyTenant)
  {
    if threads == [] {
      SumCountsNil(tenants);
    } else {
      var front, pc := threads[..|threads| - 1], threads[|threads| - 1];
      SumIsAnyTenant(front, tenants);
      SumCountsSnoc(front, pc, tenants);
      assert threads == front + [pc];
    }
  }

  lemma {:induction false} SumsAgree(w: World, l: Limits, tenants: seq<string>)
    requires Inv(w, l)
    ensures SumOccupancy(w.sems, tenants) == SumCounts(w.threads, tenants)
  {
    hide Count;
    if tenants != [] { SumsAgree(w, l, tenants[..|tenants| - 1]); }
  }

  /**
   * The global channel holds one token per tenant slot plus one per goroutine on its way in, rolling back or on its
   * way out. `tenants` lists all tenants in use, once each.
   */
  lemma GlobalIsTenantsPlusTransient(n: nat, schedule: seq<(nat, string)>, l: Limits, tenants: seq<string>)
    requires Distinct(tenants) && ListsTenants(Run(n, schedule, l).threads, tenants)
    ensures var w := Run(n, schedule, l);
            w.global == SumOccupancy(w.sems, tenants) + Count(w.threads, Transient)
  {
    var w := Run(n, schedule, l);
    RunKeepsInv(n, schedule, l);
    SumsAgree(w, l, tenants);
    SumIsAnyTenant(w.threads, tenants);
    CountSplit(w.threads, "");
  }

  /** A request is turned away by the global limit exactly when bodies and goroutines between steps fill it. */
  lemma GlobalRejectionIff(n: nat, schedule: seq<(nat, string)>, l: Limits, i: nat, tenant: string)
    requires i < |Run(n, schedule, l).threads| && Run(n, schedule, l).threads[i] == Idle
    ensures var w := Run(n, schedule, l);
            Next(w, i, tenant, l).threads[i] == CountRejected
            <==> Count(w.threads, HoldsAnyTenant) + Count(w.threads, Transient) == l.total
  {
    hide Count;
    var w := Run(n, schedule, l);
    RunKeepsInv(n, schedule, l);
    CountSplit(w.threads, tenant);
  }

  /**
   * A request past the global limit is rolled back exactly when its own tenant's slots are all held by requests of that
   * tenant; otherwise it gets one, whatever other tenants do.
   */
  lemma TenantRejectionIff(n: nat, schedule: seq<(nat, string)>, l: Limits, i: nat, any: string)
    requires i < |Run(n, schedule, l).threads| && Run(n, schedule, l).threads[i].TryTenant?
    ensures var w := Run(n, schedule, l);
            var t, next := w.threads[i].t, Next(w, i, any, l).threads[i];
            && (next == RollBack(t) <==> Count(w.threads, HoldsTenant(t)) == l.perTenant)
            && (next == CountActive(t) <==> Count(w.threads, HoldsTenant(t)) < l.perTenant)
  {
    hide Count;
    RunKeepsInv(n, schedule, l);
    var w := Run(n, schedule, l);
    assert Occupancy(w.sems, w.threads[i].t) == Count(w.threads, HoldsTenant(w.threads[i].t)) <= l.perTenant;
  }

  // ---------------------------------------------------------------- refused without being full

  lemma RunSnoc(n: nat, schedule: seq<(nat, string)>, move: (nat, string), l: Limits)
    ensures var w := Run(n, schedule, l);
            Run(n, schedule + [move], l) == if Enabled(w, move.0) then Next(w, move.0, move.1, l) else w
  {
    assert (schedule + [move])[..|schedule|] == schedule;
  }

  /** Goroutine `i` is idle after the schedule and a call of Do for `tenant` meets the global limit. */
  ghost predicate Refused(n: nat, schedule: seq<(nat, string)>, l: Limits, i: nat, tenant: string) {
    var w := Run(n, schedule, l);
    i < |w.threads| && w.threads[i] == Idle && Next(w, i, tenant, l).threads[i] == CountRejected
  }

  /** Every call of Do in the schedule is for tenant `a`. */
  ghost predicate OnlyFor(schedule: seq<(nat, string)>, a: string) {
    forall k :: 0 <= k < |schedule| ==> schedule[k].1 == a
  }

  /** `k` goroutines hold a global slot for `a`, and the first `j` of them a slot of the tenant as well. */
  function Crowd(n: nat, k: nat, j: nat, a: string): World
    requires j <= k <= n
  {
    World(k, if j == 0 then map[] else map[a := j], j, 0, 0,
          seq(n, i requires 0 <= i < n => if i < j then Body(a) else if i < k then Lookup(a) else Idle))
  }

  lemma {:induction false} CrowdEnters(n: nat, l: Limits, k: nat, a: string) returns (schedule: seq<(nat, string)>)
    requires k <= n && k <= l.total
    ensures OnlyFor(schedule, a) && Run(n, schedule, l) == Crowd(n, k, 0, a)
  {
    if k == 0 {
      schedule := [];
      assert Start(n).threads == Crowd(n, 0, 0, a).threads;
    } else {
      var before := CrowdEnters(n, l, k - 1, a);
      RunSnoc(n, before, (k - 1, a), l);
      schedule := before + [(k - 1, a)];
      assert Crowd(n, k - 1, 0, a).threads[k - 1 := Lookup(a)] == Crowd(n, k, 0, a).threads;
    }
  }

  /** Goroutine `j` goes from Lookup to Body. */
  lemma OneMoreBody(n: nat, l: Limits, k: nat, j: nat, a: string, before: seq<(nat, string)>)
    returns (schedule: seq<(nat, string)>)
    requires j < k <= n && j < l.perTenant
    requires OnlyFor(before, a) && Run(n, before, l) == Crowd(n, k, j, a)
    ensures OnlyFor(schedule, a) && Run(n, schedule, l) == Crowd(n, k, j + 1, a)
  {
    var w, move := Crowd(n, k, j, a), (j, a);
    var s1, s2 := before + [move], before + [move] + [move];
    schedule := s2 + [move];
    RunSnoc(n, before, move, l);
    RunSnoc(n, s1, move, l);
    RunSnoc(n, s2, move, l);
    hide Run, OnlyFor;
    assert Run(n, s1, l) == w.(sems := map[a := j], threads := w.threads[j := TryTenant(a)]);
    assert Run(n, s2, l) == w.(sems := map[a := j + 1], threads := w.threads[j := CountActive(a)]);
    assert w.threads[j := Body(a)] == Crowd(n, k, j + 1, a).threads;
    assert OnlyFor(schedule, a) by { OnlyForSnoc(before, a, move); OnlyForSnoc(s1, a, move); OnlyForSnoc(s2, a, move); }
  }

  lemma OnlyForSnoc(schedule: seq<(nat, string)>, a: string, move: (nat, string))
    requires OnlyFor(schedule, a) && move.1 == a
    ensures OnlyFor(schedule + [move], a)
  {
  }

  lemma {:induction false} CrowdRuns(n: nat, l: Limits, k: nat, j: nat, a: string) returns (schedule: seq<(nat, string)>)
    requires j <= k <= n && k <= l.total && j <= l.perTenant
    ensures OnlyFor(schedule, a) && Run(n, schedule, l) == Crowd(n, k, j, a)
  {
    hide Run, Crowd, OnlyFor;
    if j == 0 {
      schedule := CrowdEnters(n, l, k, a);
    } else {
      var before := CrowdRuns(n, l, k, j - 1, a);
      schedule := OneMoreBody(n, l, k, j - 1, a, before);
    }
  }

  lemma {:induction false} CountBodies(threads: seq<Pc>, a: string, j: nat)
    requires j <= |threads| && forall i :: 0 <= i < |threads| ==> if i < j then threads[i] == Body(a) else threads[i] == Lookup(a) || threads[i] == Idle
    ensures Count(threads, InBodyOf(a)) == Count(threads, HoldsAnyTenant) == j
  {
    if threads != [] {
      var front := threads[..|threads| - 1];
      CountBodies(front, a, if j <= |front| then j else |front|);
    }
  }

  /** The bodies one tenant can have. */
  function Share(l: Limits): nat {
    Min(l.perTenant, l.total)
  }

  /**
   * A busy tenant gets others refused, at any limits: its own limit filled by bodies, the rest of the global slots held
   * for a moment by requests of the same tenant that are about to be turned away, and tenant `b`, with nothing running,
   * meets the global limit.
   */
  lemma NoisyTenantCausesRejection(n: nat, l: Limits, a: string, b: string) returns (schedule: seq<(nat, string)>)
    requires l.total < n
    ensures OnlyFor(schedule, a) && Run(n, schedule, l) == Crowd(n, l.total, Share(l), a)
    ensures var threads := Run(n, schedule, l).threads;
            Count(threads, InBodyOf(a)) == Count(threads, HoldsAnyTenant) == Share(l)
    ensures Refused(n, schedule, l, l.total, b)
  {
    schedule := CrowdRuns(n, l, l.total, Share(l), a);
    hide Run;
    CountBodies(Crowd(n, l.total, Share(l), a).threads, a, Share(l));
  }

  /** With as many goroutines as global slots nobody is refused globally: the idle one holds none. */
  lemma FewAreNeverRefused(n: nat, schedule: seq<(nat, string)>, l: Limits, i: nat, tenant: string)
    requires n <= l.total
    ensures !Refused(n, schedule, l, i, tenant)
  {
    var w := Run(n, schedule, l);
    ThreadsFixed(n, schedule, l);
    RunKeepsInv(n, schedule, l);
    hide Run;
    if i < |w.threads| && w.threads[i] == Idle {
      CountBelow(w.threads, i);
    }
  }

  lemma {:induction false} ThreadsFixed(n: nat, schedule: seq<(nat, string)>, l: Limits)
    ensures |Run(n, schedule, l).threads| == n
  {
    if schedule != [] {
      ThreadsFixed(n, schedule[..|schedule| - 1], l);
    }
  }

  lemma {:induction false} CountBelow(threads: seq<Pc>, i: nat)
    requires i < |threads| && threads[i] == Idle
    ensures Count(threads, HoldsGlobal) < |threads|
  {
    var front := threads[..|threads| - 1];
    if i < |front| {
      CountBelow(front, i);
    } else {
      CountAtMost(front);
    }
  }

  lemma {:induction false} CountAtMost(threads: seq<Pc>)
    ensures Count(threads, HoldsGlobal) <= |threads|
  {
    if threads != [] {
      CountAtMost(threads[..|threads| - 1]);
    }
  }

  /**
   * A request can be turned away by the global limit although fewer than maxGlobal requests hold a tenant slot, if and
   * only if there are more goroutines than global slots.
   */
  lemma RefusedBelowLimitIff(n: nat, l: Limits)
    requires l.total > 0
    ensures (exists schedule, i: nat, tenant ::
               Refused(n, schedule, l, i, tenant) && Count(Run(n, schedule, l).threads, HoldsAnyTenant) < l.total)
            <==> n > l.total
  {
    if n > l.total {
      var schedule := CrowdEnters(n, l, l.total, "");
      CountBodies(Crowd(n, l.total, 0, "").threads, "", 0);
      hide Run, Count;
      assert Refused(n, schedule, l, l.total, "");
    } else {
      forall schedule, i: nat, tenant ensures !Refused(n, schedule, l, i, tenant) {
        FewAreNeverRefused(n, schedule, l, i, tenant);
      }
    }
  }

  /** Requests of tenant `a` alone, no more of them running than its limit allows, get tenant `b` refused. */
  ghost predicate Starves(n: nat, schedule: seq<(nat, string)>, l: Limits, i: nat, a: string, b: string) {
    && OnlyFor(schedule, a) && Refused(n, schedule, l, i, b)
    && Count(Run(n, schedule, l).threads, HoldsAnyTenant) == Share(l)
  }

  /**
   * "A single noisy tenant cannot starve all others" holds, at whatever limits, if and only if no more goroutines run
   * than there are global slots: then the global limit is never met at all.
   */
  lemma NoisyTenantStarvesIff(n: nat, l: Limits, a: string, b: string)
    ensures (exists schedule, i: nat :: Starves(n, schedule, l, i, a, b)) <==> n > l.total
  {
    if n > l.total {
      var schedule := NoisyTenantCausesRejection(n, l, a, b);
      assert Starves(n, schedule, l, l.total, a, b);
    } else {
      forall schedule, i: nat ensures !Starves(n, schedule, l, i, a, b) {
        FewAreNeverRefused(n, schedule, l, i, b);
      }
    }
  }

  // ---------------------------------------------------------------- one caller at a time

  /** The bulkhead's own state, without the goroutines. */
  datatype Slots = Slots(global: int, sems: map<string, int>, active: int, rejected: nat)

  function View(w: World): Slots {
    Slots(w.global, w.sems, w.active, w.rejected)
  }

  /** Acquire without interleaving; the flag says whether both slots were taken. */
  function AfterAcquire(s: Slots, t: string, l: Limits): (Slots, bool) {
    var sems := s.sems[t := Occupancy(s.sems, t)];
    if s.global >= l.total then (s.(rejected := s.rejected + 1), false)
    else if sems[t] >= l.perTenant then (s.(sems := sems, rejected := s.rejected + 1), false)
    else (s.(global := s.global + 1, sems := sems[t := sems[t] + 1], active := s.active + 1), true)
  }

  function AfterRelease(s: Slots, t: string): Slots {
    var occupied := Occupancy(s.sems, t);
    Slots(if s.global > 0 then s.global - 1 else s.global,
          s.sems[t := if occupied > 0 then occupied - 1 else occupied], s.active - 1, s.rejected)
  }

  /** Release undoes a successful Acquire: all that stays is the tenant's semaphore, with its old occupancy. */
  lemma ReleaseUndoesAcquire(s: Slots, t: string, l: Limits)
    requires s.global >= 0 && Occupancy(s.sems, t) >= 0 && AfterAcquire(s, t, l).1
    ensures AfterRelease(AfterAcquire(s, t, l).0, t) == s.(sems := s.sems[t := Occupancy(s.sems, t)])
  {
    var sems := s.sems[t := Occupancy(s.sems, t)];
    assert sems[t := sems[t] + 1][t := sems[t]] == sems;
  }

  function Moves(w: World, i: nat, t: string, l: Limits, k: nat): World {
    if k == 0 then w
    else
      var w' := Moves(w, i, t, l, k - 1);
      if Enabled(w', i) then Next(w', i, t, l) else w'
  }

  /** The class below is the step machine with one goroutine moving: Acquire takes two, four or five of its steps. */
  lemma AcquireIsMoves(w: World, i: nat, t: string, l: Limits) returns (k: nat)
    requires w.global >= 0 && i < |w.threads| && w.threads[i] == Idle
    ensures var (s, ok) := AfterAcquire(View(w), t, l); var z := Moves(w, i, t, l, k);
            View(z) == s && z.threads == w.threads[i := if ok then Body(t) else Idle] && z.defaults == w.defaults
  {
    assert Moves(w, i, t, l, 0) == w;
    var w1, w2 := Moves(w, i, t, l, 1), Moves(w, i, t, l, 2);
    if w.global >= l.total {
      assert w2.threads == w.threads[i := Idle];
      return 2;
    }
    assert w2.threads == w.threads[i := TryTenant(t)];
    var w3, w4 := Moves(w, i, t, l, 3), Moves(w, i, t, l, 4);
    if Occupancy(w.sems, t) < l.perTenant {
      assert w4.threads == w.threads[i := Body(t)];
      return 4;
    }
    assert w4.threads == w.threads[i := CountRejected];
    assert Moves(w, i, t, l, 5).threads == w.threads[i := Idle];
    return 5;
  }

  lemma ReleaseIsMoves(w: World, i: nat, t: string, l: Limits)
    requires i < |w.threads| && w.threads[i] == Body(t)
    ensures var z := Moves(w, i, t, l, 4); View(z) == AfterRelease(View(w), t) && z.threads == w.threads[i := Idle]
  {
    assert Moves(w, i, t, l, 0) == w;
    var w1, w2, w3 := Moves(w, i, t, l, 1), Moves(w, i, t, l, 2), Moves(w, i, t, l, 3);
    assert w1.threads == w.threads[i := ReleaseTenant(t)];
    assert w2.threads == w.threads[i := ReleaseGlobal(t)];
    assert w3.threads == w.threads[i := CountReleased];
    assert Moves(w, i, t, l, 4).threads == w.threads[i := Idle];
  }

  class Semaphores {
    var global: int
    var semaphores: map<string, int>
    var activeTotal: int
    var rejectedTotal: nat
    const limits: Limits

    ghost function Snapshot(): Slots
      reads this
    {
      Slots(global, semaphores, activeTotal, rejectedTotal)
    }

    constructor (maxPerTenant: int, maxGlobal: int)
      ensures Snapshot() == Slots(0, map[], 0, 0) && limits == NewLimits(maxPerTenant, maxGlobal)
    {
      global, semaphores, activeTotal, rejectedTotal := 0, map[], 0, 0;
      limits := NewLimits(maxPerTenant, maxGlobal);
    }

    method GetOrCreate(tenantID: string)
      modifies `semaphores
      ensures semaphores == old(semaphores)[tenantID := Occupancy(old(semaphores), tenantID)]
    {
      if tenantID !in semaphores {
        semaphores := semaphores[tenantID := 0];
      }
      assert semaphores == semaphores[tenantID := semaphores[tenantID]];
    }

    method Acquire(tenantID: string) returns (ok: bool)
      modifies this
      ensures (Snapshot(), ok) == AfterAcquire(old(Snapshot()), tenantID, limits)
      ensures ok <==> old(global) < limits.total && Occupancy(old(semaphores), tenantID) < limits.perTenant
      ensures rejectedTotal == old(rejectedTotal) + if ok then 0 else 1
      ensures forall t :: Occupancy(semaphores, t) == Occupancy(old(semaphores), t) + if ok && t == tenantID then 1 else 0
    {
      if global < limits.total {
        global := global + 1;
      } else {
        rejectedTotal := rejectedTotal + 1;
        return false;
      }
      GetOrCreate(tenantID);
      if semaphores[tenantID] < limits.perTenant {
        semaphores := semaphores[tenantID := semaphores[tenantID] + 1];
      } else {
        global := global - 1;
        rejectedTotal := rejectedTotal + 1;
        return false;
      }
      activeTotal := activeTotal + 1;
      return true;
    }

    method Release(tenantID: string)
      modifies this
      ensures Snapshot() == AfterRelease(old(Snapshot()), tenantID)
      ensures forall t :: Occupancy(semaphores, t)
                == Occupancy(old(semaphores), t) - if t == tenantID && Occupancy(old(semaphores), t) > 0 then 1 else 0
    {
      GetOrCreate(tenantID);
      if semaphores[tenantID] > 0 {
        semaphores := semaphores[tenantID := semaphores[tenantID] - 1];
      }
      if global > 0 {
        global := global - 1;
      }
      activeTotal := activeTotal - 1;
    }

    /** `result` is what the caller's function returns if it gets to run. */
    method Do(tenantID: string, result: bool) returns (ran: bool, ok: bool)
      requires global >= 0 && Occupancy(semaphores, tenantID) >= 0
      modifies this
      ensures ran <==> old(global) < limits.total && Occupancy(old(semaphores), tenantID) < limits.perTenant
      ensures ok <==> ran && result
      ensures ran ==> Snapshot() == old(Snapshot()).(sems := old(semaphores)[tenantID := Occupancy(old(semaphores), tenantID)])
      ensures !ran ==> rejectedTotal == old(rejectedTotal) + 1 && global == old(global) && activeTotal == old(activeTotal)
    {
      ghost var before := Snapshot();
      ran := Acquire(tenantID);
      if !ran {
        return false, false;
      }
      ok := result;
      Release(tenantID);
      ReleaseUndoesAcquire(before, tenantID, limits);
    }
  }
}
