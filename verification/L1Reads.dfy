/**
 * What the readers of one key are told between two writes of it (internal/cache/l1.go): which of them gets the value,
 * and which is told to refresh. The answers of Get are tied to the steps of module L1Races.
 */
module L1Reads {
  import opened L1
  import L1Races

  datatype Call =
    | Get(key: string, now: int, again: int)  // `again` is the clock reading of the staleness check
    | Set(key: string, value: Bytes, ttl: int, staleTtl: int, now: int)
    | Delete(key: string)

  function After(s: State, call: Call): State {
    match call
    case Get(key, now, again) => AfterGet(s, key, now, again).0
    case Set(key, value, ttl, staleTtl, now) => ClearFlag(Put(s, key, NewEntry(value, ttl, staleTtl, now)), key)
    case Delete(key) => ClearFlag(Drop(s, key), key)
  }

  function AfterAll(s: State, calls: seq<Call>): State {
    if calls == [] then s else After(AfterAll(s, calls[..|calls| - 1]), calls[|calls| - 1])
  }

  /** The answers to the Gets of `key`. */
  function Answers(s: State, calls: seq<Call>, key: string): seq<GetResult> {
    if calls == [] then []
    else
      var front, call := calls[..|calls| - 1], calls[|calls| - 1];
      if call.Get? && call.key == key
      then Answers(s, front, key) + [AfterGet(AfterAll(s, front), key, call.now, call.again).1]
      else Answers(s, front, key)
  }

  datatype Reading = Reading(now: int, again: int)

  /** The clock readings of the Gets of `key`. */
  function Reads(calls: seq<Call>, key: string): seq<Reading> {
    if calls == [] then []
    else
      var front, call := Reads(calls[..|calls| - 1], key), calls[|calls| - 1];
      if call.Get? && call.key == key then front + [Reading(call.now, call.again)] else front
  }

  /** The calls write other keys at will, and only read this one. */
  ghost predicate OnlyRead(calls: seq<Call>, key: string) {
    forall i :: 0 <= i < |calls| && calls[i].key == key ==> calls[i].Get?
  }

  /** Set's arguments: the value, when it was set, for how long, and after how long it is stale. */
  datatype Written = Written(value: Bytes, at: int, ttl: int, staleTtl: int)

  /** Stale but not expired: strictly between the two ends, and only for a stale time below the time to live. */
  predicate InWindow(x: Written, again: int) {
    0 < x.staleTtl < x.ttl && x.at + x.staleTtl < again < x.at + x.ttl
  }

  ghost predicate AnyExpired(x: Written, seen: seq<Reading>) {
    exists m :: 0 <= m < |seen| && seen[m].now > x.at + x.ttl
  }

  ghost predicate AnyStale(x: Written, seen: seq<Reading>) {
    exists m :: 0 <= m < |seen| && InWindow(x, seen[m].again)
  }

  lemma AnySnoc(x: Written, seen: seq<Reading>, r: Reading)
    ensures AnyExpired(x, seen + [r]) <==> AnyExpired(x, seen) || r.now > x.at + x.ttl
    ensures AnyStale(x, seen + [r]) <==> AnyStale(x, seen) || InWindow(x, r.again)
  {
    hide InWindow;
    var all := seen + [r];
    assert all[|seen|] == r && forall m :: 0 <= m < |seen| ==> all[m] == seen[m];
    if AnyExpired(x, seen) {
      var m :| 0 <= m < |seen| && seen[m].now > x.at + x.ttl;
      assert all[m].now > x.at + x.ttl;
    }
    if AnyStale(x, seen) {
      var m :| 0 <= m < |seen| && InWindow(x, seen[m].again);
      assert InWindow(x, all[m].again);
    }
  }

  /** What the next reader is told, given the earlier ones. */
  ghost function Told(x: Written, earlier: seq<Reading>, r: Reading): GetResult {
    if AnyExpired(x, earlier) || r.now > x.at + x.ttl then Miss
    else Hit(x.value, InWindow(x, r.again) && !AnyStale(x, earlier))
  }

  ghost predicate AllTold(x: Written, seen: seq<Reading>, answers: seq<GetResult>) {
    |answers| == |seen| && forall k :: 0 <= k < |seen| ==> answers[k] == Told(x, seen[..k], seen[k])
  }

  /** What the cache holds of the key. */
  ghost predicate Holds(x: Written, key: string, seen: seq<Reading>, s: State) {
    if AnyExpired(x, seen) then key !in s.entries
    else key in s.entries && s.entries[key] == NewEntry(x.value, x.ttl, x.staleTtl, x.at)
         && (key in s.revalidating <==> AnyStale(x, seen))
  }

  lemma OtherCallHolds(x: Written, key: string, seen: seq<Reading>, s: State, call: Call)
    requires Holds(x, key, seen, s) && call.key != key
    ensures Holds(x, key, seen, After(s, call))
  {
    hide AnyExpired, AnyStale;
  }

  lemma GetHolds(x: Written, key: string, seen: seq<Reading>, s: State, r: Reading)
    requires Holds(x, key, seen, s)
    ensures Holds(x, key, seen + [r], After(s, Get(key, r.now, r.again)))
    ensures AfterGet(s, key, r.now, r.again).1 == Told(x, seen, r)
  {
    AnySnoc(x, seen, r);
    hide AnyExpired, AnyStale;
  }

  lemma AllToldSnoc(x: Written, seen: seq<Reading>, answers: seq<GetResult>, r: Reading, a: GetResult)
    requires AllTold(x, seen, answers) && a == Told(x, seen, r)
    ensures AllTold(x, seen + [r], answers + [a])
  {
    hide Told;
    var all := seen + [r];
    assert all[..|seen|] == seen;
    forall k | 0 <= k < |seen| ensures all[..k] == seen[..k] && all[k] == seen[k] {
    }
  }

  lemma SetHolds(x: Written, key: string, s: State)
    ensures Holds(x, key, [], After(s, Set(key, x.value, x.ttl, x.staleTtl, x.at)))
  {
  }

  lemma {:induction false} ReadsHold(x: Written, key: string, s: State, calls: seq<Call>)
    requires Holds(x, key, [], s) && OnlyRead(calls, key)
    ensures Holds(x, key, Reads(calls, key), AfterAll(s, calls))
    ensures AllTold(x, Reads(calls, key), Answers(s, calls, key))
  {
    if calls != [] {
      var front, call := calls[..|calls| - 1], calls[|calls| - 1];
      ReadsHold(x, key, s, front);
      hide Holds, AllTold, OnlyRead;
      assert calls[|calls| - 1].key == key ==> call.Get? by { LastIsRead(calls, key); }
      if call.key == key {
        var r := Reading(call.now, call.again);
        GetHolds(x, key, Reads(front, key), AfterAll(s, front), r);
        AllToldSnoc(x, Reads(front, key), Answers(s, front, key), r, Told(x, Reads(front, key), r));
      } else {
        OtherCallHolds(x, key, Reads(front, key), AfterAll(s, front), call);
      }
    } else {
      NobodyTold(x);
    }
  }

  lemma LastIsRead(calls: seq<Call>, key: string)
    requires calls != [] && OnlyRead(calls, key)
    ensures calls[|calls| - 1].key == key ==> calls[|calls| - 1].Get?
  {
  }

  lemma NobodyTold(x: Written)
    ensures AllTold(x, [], [])
  {
  }

  /**
   * After Set(key, value, ttl, staleTtl), whatever is read and written of other keys: every Get of the key answers the
   * value until one of them finds it past its ttl, from when on all miss; and of those strictly between staleTtl and ttl
   * the first, and no other, is told to refresh.
   */
  lemma FirstStaleReaderRefreshes(s: State, key: string, x: Written, calls: seq<Call>)
    requires OnlyRead(calls, key)
    ensures var written := After(s, Set(key, x.value, x.ttl, x.staleTtl, x.at));
            AllTold(x, Reads(calls, key), Answers(written, calls, key))
  {
    SetHolds(x, key, s);
    ReadsHold(x, key, After(s, Set(key, x.value, x.ttl, x.staleTtl, x.at)), calls);
  }

  lemma GetOfMinute(s: State, key: string, v: Bytes, now: int)
    requires key in s.entries && s.entries[key] == NewEntry(v, 60, 45, 0)
    ensures now == 44 ==> AfterGet(s, key, now, now) == (s, Hit(v, false))
    ensures 45 < now < 60 ==> AfterGet(s, key, now, now) == (ClaimFlag(s, key), Hit(v, key !in s.revalidating))
    ensures now > 60 ==> AfterGet(s, key, now, now).1 == Miss
    ensures ClaimFlag(s, key).entries == s.entries && key in ClaimFlag(s, key).revalidating
  {
  }

  lemma SetForMinute(s: State, key: string, v: Bytes)
    ensures var s0 := After(s, Set(key, v, 60, 45, 0));
            key in s0.entries && s0.entries[key] == NewEntry(v, 60, 45, 0) && key !in s0.revalidating
  {
  }

  lemma AfterIs(s: State, key: string, now: int)
    ensures After(s, Get(key, now, now)) == AfterGet(s, key, now, now).0
    ensures AfterAll(s, []) == s && Answers(s, [], key) == []
  {
  }

  /** Two readers of a minute's entry that is stale after 45: the first refreshes, the second does not. */
  lemma FirstOfTwo(s: State, v: Bytes)
    ensures var calls := [Get("k", 44, 44), Get("k", 50, 50), Get("k", 51, 51), Get("k", 61, 61)];
            Answers(After(s, Set("k", v, 60, 45, 0)), calls, "k") == [Hit(v, false), Hit(v, true), Hit(v, false), Miss]
  {
    hide After, AfterGet, AfterAll, Answers, ClaimFlag, NewEntry;
    var key, s0 := "k", After(s, Set("k", v, 60, 45, 0));
    var g0, g1, g2, g3 := Get(key, 44, 44), Get(key, 50, 50), Get(key, 51, 51), Get(key, 61, 61);
    SetForMinute(s, key, v);
    AfterIs(s0, key, 44);
    AnswersSnoc(s0, [], g0, key);
    assert [] + [g0] == [g0];
    GetOfMinute(s0, key, v, 44);
    AnswersSnoc(s0, [g0], g1, key);
    assert [g0] + [g1] == [g0, g1];
    GetOfMinute(s0, key, v, 50);
    AfterIs(s0, key, 50);
    var s1 := ClaimFlag(s0, key);
    AnswersSnoc(s0, [g0, g1], g2, key);
    assert [g0, g1] + [g2] == [g0, g1, g2];
    GetOfMinute(s1, key, v, 51);
    AfterIs(s1, key, 51);
    AnswersSnoc(s0, [g0, g1, g2], g3, key);
    assert [g0, g1, g2] + [g3] == [g0, g1, g2, g3];
    GetOfMinute(ClaimFlag(s1, key), key, v, 61);
  }

  lemma AnswersSnoc(s: State, calls: seq<Call>, call: Call, key: string)
    requires call.Get? && call.key == key
    ensures Answers(s, calls + [call], key) == Answers(s, calls, key) + [AfterGet(AfterAll(s, calls), key, call.now, call.again).1]
    ensures AfterAll(s, calls + [call]) == After(AfterAll(s, calls), call)
  {
    assert (calls + [call])[..|calls|] == calls;
  }

  /** After Delete every Get misses until the next Set. */
  lemma {:induction false} DeletedIsMissed(s: State, key: string, calls: seq<Call>)
    requires OnlyRead(calls, key)
    ensures var gone := After(s, Delete(key));
            key !in AfterAll(gone, calls).entries
            && (forall k :: 0 <= k < |Answers(gone, calls, key)| ==> Answers(gone, calls, key)[k] == Miss)
  {
    if calls != [] {
      DeletedIsMissed(s, key, calls[..|calls| - 1]);
    }
  }

  // ---------------------------------------------------------------- Get and its steps

  /** The steps of one Get. */
  function StepsOf(s: State, tid: nat, key: string, now: int, again: int): seq<L1Races.Step> {
    if key !in s.entries then []
    else if s.entries[key].IsExpired(now) then
      [L1Races.Lookup(tid, key), L1Races.CheckExpiry(tid, now), L1Races.DropExpired(tid)]
    else if s.entries[key].IsStale(again) then
      [L1Races.Lookup(tid, key), L1Races.CheckExpiry(tid, now), L1Races.CheckStale(tid, again), L1Races.Elect(tid)]
    else [L1Races.Lookup(tid, key), L1Races.CheckExpiry(tid, now), L1Races.CheckStale(tid, again)]
  }

  function Follow(w: L1Races.World, steps: seq<L1Races.Step>, max: nat): L1Races.World
    decreases |steps|
  {
    if steps == [] then w else Follow(L1Races.Next(w, steps[0], max), steps[1..], max)
  }

  lemma FollowThree(w: L1Races.World, a: L1Races.Step, b: L1Races.Step, c: L1Races.Step, max: nat)
    ensures Follow(w, [a, b, c], max) == L1Races.Next(L1Races.Next(L1Races.Next(w, a, max), b, max), c, max)
  {
    hide *;
    FollowOne(w, [a, b, c], max);
    FollowOne(L1Races.Next(w, a, max), [b, c], max);
    FollowOne(L1Races.Next(L1Races.Next(w, a, max), b, max), [c], max);
    FollowNone(L1Races.Next(L1Races.Next(L1Races.Next(w, a, max), b, max), c, max), max);
    assert [a, b, c][1..] == [b, c] && [b, c][1..] == [c] && [c][1..] == [];
  }

  lemma FollowOne(w: L1Races.World, steps: seq<L1Races.Step>, max: nat)
    requires steps != []
    ensures Follow(w, steps, max) == Follow(L1Races.Next(w, steps[0], max), steps[1..], max)
  {
  }

  lemma FollowNone(w: L1Races.World, max: nat)
    ensures Follow(w, [], max) == w
  {
  }

  lemma FollowTwo(w: L1Races.World, a: L1Races.Step, b: L1Races.Step, max: nat)
    ensures Follow(w, [a, b], max) == L1Races.Next(L1Races.Next(w, a, max), b, max)
  {
    hide *;
    FollowOne(w, [a, b], max);
    FollowOne(L1Races.Next(w, a, max), [b], max);
    FollowNone(L1Races.Next(L1Races.Next(w, a, max), b, max), max);
    assert [a, b][1..] == [b] && [b][1..] == [];
  }

  /** So are Set, Delete and the janitor's sweep, each with its two locked parts or its one. */
  lemma WritesAreSteps(w: L1Races.World, key: string, value: Bytes, ttl: int, staleTtl: int, now: int, max: nat)
    ensures var e := NewEntry(value, ttl, staleTtl, now);
            var z := Follow(w, [L1Races.SetEntry(key, e), L1Races.ClearKey(key)], max);
            z.cache == After(w.cache, Set(key, value, ttl, staleTtl, now)) && z.latest == w.latest[key := e]
    ensures var z := Follow(w, [L1Races.DeleteEntry(key), L1Races.ClearKey(key)], max);
            z.cache == After(w.cache, Delete(key)) && z.latest == w.latest - {key}
    ensures L1Races.Next(w, L1Races.Sweep(now), max).cache == Swept(w.cache, max, now)
  {
    FollowTwo(w, L1Races.SetEntry(key, NewEntry(value, ttl, staleTtl, now)), L1Races.ClearKey(key), max);
    FollowTwo(w, L1Races.DeleteEntry(key), L1Races.ClearKey(key), max);
    hide Follow, Swept, NewEntry;
  }

  /** Whether the answer of a Get tells its caller to refresh. */
  function Refreshes(r: GetResult): nat {
    if r.Hit? && r.needsRefresh then 1 else 0
  }

  function ServedBy(key: string, r: GetResult, now: int, truth: Entry): seq<L1Races.Served> {
    if r.Hit? then [L1Races.Served(key, r.value, now, truth)] else []
  }

  /** Get as one call is its steps in a row: same cache, same value served, and the same reader told to refresh. */
  lemma GetIsSteps(w: L1Races.World, tid: nat, key: string, now: int, again: int, max: nat)
    requires tid !in w.readers && (key in w.cache.entries ==> key in w.latest)
    ensures var (s, r) := AfterGet(w.cache, key, now, again);
            var z := Follow(w, StepsOf(w.cache, tid, key, now, again), max);
            && z.cache == s && z.readers == w.readers
            && L1Races.Elected(z, key) == L1Races.Elected(w, key) + Refreshes(r)
            && z.served == w.served + (if key in w.cache.entries then ServedBy(key, r, now, w.latest[key]) else [])
  {
    if key in w.cache.entries {
      var e := w.cache.entries[key];
      if e.IsExpired(now) {
        ExpiredSteps(w, tid, key, now, max);
      } else {
        FreshSteps(w, tid, key, now, again, max);
      }
    }
  }

  lemma ExpiredSteps(w: L1Races.World, tid: nat, key: string, now: int, max: nat)
    requires tid !in w.readers && key in w.cache.entries && key in w.latest && w.cache.entries[key].IsExpired(now)
    ensures Follow(w, [L1Races.Lookup(tid, key), L1Races.CheckExpiry(tid, now), L1Races.DropExpired(tid)], max)
            == w.(cache := Drop(w.cache, key))
  {
    FollowThree(w, L1Races.Lookup(tid, key), L1Races.CheckExpiry(tid, now), L1Races.DropExpired(tid), max);
    hide Follow, Drop, Swept;
    var w1 := L1Races.Next(w, L1Races.Lookup(tid, key), max);
    var w2 := L1Races.Next(w1, L1Races.CheckExpiry(tid, now), max);
    assert w2.readers - {tid} == w.readers;
  }

  /** The value is served after the expiry check. */
  lemma ServeSteps(w: L1Races.World, tid: nat, key: string, now: int, max: nat)
    requires tid !in w.readers && key in w.cache.entries && key in w.latest && !w.cache.entries[key].IsExpired(now)
    ensures var e, truth := w.cache.entries[key], w.latest[key];
            L1Races.Next(L1Races.Next(w, L1Races.Lookup(tid, key), max), L1Races.CheckExpiry(tid, now), max)
            == w.(readers := w.readers[tid := L1Races.Unexpired(key, e, truth)],
                  served := w.served + [L1Races.Served(key, e.value, now, truth)])
  {
    hide Swept, Put, Drop, ClaimFlag;
  }

  lemma FollowFour(w: L1Races.World, a: L1Races.Step, b: L1Races.Step, c: L1Races.Step, d: L1Races.Step, max: nat)
    ensures Follow(w, [a, b, c, d], max)
            == L1Races.Next(L1Races.Next(L1Races.Next(L1Races.Next(w, a, max), b, max), c, max), d, max)
  {
    hide *;
    FollowOne(w, [a, b, c, d], max);
    FollowThree(L1Races.Next(w, a, max), b, c, d, max);
    assert [a, b, c, d][1..] == [b, c, d];
  }

  lemma FreshSteps(w: L1Races.World, tid: nat, key: string, now: int, again: int, max: nat)
    requires tid !in w.readers && key in w.cache.entries && key in w.latest && !w.cache.entries[key].IsExpired(now)
    ensures var (s, r) := AfterGet(w.cache, key, now, again);
            var z := Follow(w, StepsOf(w.cache, tid, key, now, again), max);
            && z.cache == s && z.readers == w.readers
            && L1Races.Elected(z, key) == L1Races.Elected(w, key) + Refreshes(r)
            && z.served == w.served + ServedBy(key, r, now, w.latest[key])
  {
    var look, check, stale, elect :=
      L1Races.Lookup(tid, key), L1Races.CheckExpiry(tid, now), L1Races.CheckStale(tid, again), L1Races.Elect(tid);
    ServeSteps(w, tid, key, now, max);
    var w2 := L1Races.Next(L1Races.Next(w, look, max), check, max);
    assert w2.readers - {tid} == w.readers;
    hide Follow, Swept, Put, Drop, ClaimFlag;
    if w.cache.entries[key].IsStale(again) {
      FollowFour(w, look, check, stale, elect, max);
      var w3 := L1Races.Next(w2, stale, max);
      assert w3.readers - {tid} == w.readers;
    } else {
      FollowThree(w, look, check, stale, max);
    }
  }

  /** With racing readers too: once a stale reader has got through its election, exactly one of the key's readers was told. */
  lemma ElectsExactlyOne(steps: seq<L1Races.Step>, tid: nat, max: nat)
    requires tid in L1Races.Run(steps, max).readers && L1Races.Run(steps, max).readers[tid].Electing?
    ensures var key := L1Races.Run(steps, max).readers[tid].key;
            L1Races.Elected(L1Races.Run(steps + [L1Races.Elect(tid)], max), key) == 1
  {
    L1Races.RunKeepsInv(steps, max);
    L1Races.RunSnoc(steps, L1Races.Elect(tid), max);
    var w := L1Races.Run(steps, max);
    var key := w.readers[tid].key;
    hide L1Races.Run;
    assert L1Races.Elected(w, key) == if key in w.cache.revalidating then 1 else 0;
  }
}
