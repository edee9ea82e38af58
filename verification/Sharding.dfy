/**
 * Write as one call sees it, and the sharded writer (internal/clickhouse/writer.go, Pool.ShardFor in
 * internal/clickhouse/client.go). `fnv` stands for FNV-1a and is never interpreted.
 */
module Sharding {
  import opened Common
  import opened WriteBehind

  /** A writer as its producers see it. `offered` is history: every event Write was given. */
  datatype WriterState = WriterState(ch: seq<Event>, pending: int, dropped: int, offered: seq<Event>)

  /** One call of Write that nothing interleaves with: what fits is queued in order, the rest is dropped. */
  function AfterWrite(s: WriterState, events: seq<Event>, bufSize: nat): WriterState
    requires |s.ch| <= bufSize
  {
    var taken := Take(events, bufSize - |s.ch|);
    WriterState(s.ch + taken, s.pending + |taken|, s.dropped + |events| - |taken|, s.offered + events)
  }

  lemma AfterWriteNil(s: WriterState, bufSize: nat)
    requires |s.ch| <= bufSize
    ensures AfterWrite(s, [], bufSize) == s
  {
    assert s.ch + [] == s.ch && s.offered + [] == s.offered;
  }

  lemma AfterWriteSnoc(s: WriterState, events: seq<Event>, e: Event, bufSize: nat)
    requires |s.ch| <= bufSize
    ensures var t := AfterWrite(s, events, bufSize);
            && |t.ch| <= bufSize
            && AfterWrite(s, events + [e], bufSize)
               == if |t.ch| < bufSize then WriterState(t.ch + [e], t.pending + 1, t.dropped, t.offered + [e])
                  else WriterState(t.ch, t.pending, t.dropped + 1, t.offered + [e])
  {
    var room := bufSize - |s.ch|;
    assert s.offered + (events + [e]) == s.offered + events + [e];
    if |events| < room {
      assert s.ch + (events + [e]) == s.ch + events + [e];
    } else {
      assert (events + [e])[..room] == events[..room];
    }
  }

  /** The call is the producer's part of the step machine, run without interleaving. */
  function View(w: World): WriterState {
    WriterState(w.ch, w.pending, |w.dropped|, w.offered)
  }

  function RunAlone(w: World, p: nat, bufSize: nat): World
    requires p in w.producers && !w.producers[p].uncounted
    decreases |w.producers[p].todo|
  {
    if w.producers[p].todo == [] then Next(w, EndWrite(p), bufSize)
    else
      var w1 := Next(w, Offer(p), bufSize);
      if w1.producers[p].uncounted then RunAlone(Next(w1, Count(p), bufSize), p, bufSize) else RunAlone(w1, p, bufSize)
  }

  lemma AfterWriteCons(s: WriterState, e: Event, rest: seq<Event>, bufSize: nat)
    requires |s.ch| <= bufSize
    ensures var t := if |s.ch| < bufSize then WriterState(s.ch + [e], s.pending + 1, s.dropped, s.offered + [e])
                     else WriterState(s.ch, s.pending, s.dropped + 1, s.offered + [e]);
            AfterWrite(s, [e] + rest, bufSize) == AfterWrite(t, rest, bufSize)
  {
    var room := bufSize - |s.ch|;
    assert s.offered + ([e] + rest) == s.offered + [e] + rest;
    if room > 0 {
      assert Take([e] + rest, room) == [e] + Take(rest, room - 1);
      assert s.ch + ([e] + Take(rest, room - 1)) == s.ch + [e] + Take(rest, room - 1);
    } else {
      assert Take([e] + rest, 0) == [] && Take(rest, 0) == [];
    }
  }

  /** The producer after one event, with nothing interleaved: offered and, if it was sent, counted. */
  function OfferAlone(w: World, p: nat, bufSize: nat): World
    requires p in w.producers && !w.producers[p].uncounted && w.producers[p].todo != []
  {
    var w1 := Next(w, Offer(p), bufSize);
    if w1.producers[p].uncounted then Next(w1, Count(p), bufSize) else w1
  }

  lemma OfferAloneView(w: World, p: nat, bufSize: nat)
    requires p in w.producers && !w.producers[p].uncounted && w.producers[p].todo != [] && |w.ch| <= bufSize
    ensures var w' := OfferAlone(w, p, bufSize);
            var e, s := w.producers[p].todo[0], View(w);
            && p in w'.producers && w'.producers[p].todo == w.producers[p].todo[1..] && !w'.producers[p].uncounted
            && |w'.ch| <= bufSize
            && View(w') == if |s.ch| < bufSize then WriterState(s.ch + [e], s.pending + 1, s.dropped, s.offered + [e])
                           else WriterState(s.ch, s.pending, s.dropped + 1, s.offered + [e])
  {
  }

  lemma RunAloneUnfolds(w: World, p: nat, bufSize: nat)
    requires p in w.producers && !w.producers[p].uncounted && w.producers[p].todo != [] && |w.ch| <= bufSize
    ensures var w' := OfferAlone(w, p, bufSize);
            p in w'.producers && !w'.producers[p].uncounted && RunAlone(w, p, bufSize) == RunAlone(w', p, bufSize)
  {
    OfferAloneView(w, p, bufSize);
  }

  lemma {:induction false} AloneIsAfterWrite(w: World, p: nat, bufSize: nat)
    requires p in w.producers && !w.producers[p].uncounted && |w.ch| <= bufSize
    ensures View(RunAlone(w, p, bufSize)) == AfterWrite(View(w), w.producers[p].todo, bufSize)
    decreases |w.producers[p].todo|
  {
    var todo := w.producers[p].todo;
    if todo == [] {
      AfterWriteNil(View(w), bufSize);
    } else {
      hide AfterWrite, RunAlone, OfferAlone;
      assert todo == [todo[0]] + todo[1..];
      OfferAloneView(w, p, bufSize);
      RunAloneUnfolds(w, p, bufSize);
      AfterWriteCons(View(w), todo[0], todo[1..], bufSize);
      AloneIsAfterWrite(OfferAlone(w, p, bufSize), p, bufSize);
    }
  }

  /** And it returns what the machine's EndWrite records. */
  lemma {:induction false} AloneAnswers(w: World, p: nat, bufSize: nat)
    requires p in w.producers && !w.producers[p].uncounted
    ensures var seen := w.producers[p].seen;
            RunAlone(w, p, bufSize).answers == w.answers + [Answer(seen, seen.gauge >= SoftLimit(bufSize))]
    decreases |w.producers[p].todo|
  {
    hide SoftLimit;
    if w.producers[p].todo != [] {
      var w1 := Next(w, Offer(p), bufSize);
      AloneAnswers(if w1.producers[p].uncounted then Next(w1, Count(p), bufSize) else w1, p, bufSize);
    }
  }

  // ---------------------------------------------------------------- drops without an error

  /** The call drops events and returns no error. */
  predicate DropsSilently(s: WriterState, events: seq<Event>, bufSize: nat)
    requires |s.ch| <= bufSize
  {
    AfterWrite(s, events, bufSize).dropped > s.dropped && !(s.pending >= SoftLimit(bufSize))
  }

  /** Exactly the calls that begin below the soft limit with more events than there is room. */
  lemma DropsSilentlyIff(s: WriterState, events: seq<Event>, bufSize: nat)
    requires |s.ch| <= bufSize
    ensures DropsSilently(s, events, bufSize) <==> |events| > bufSize - |s.ch| && s.pending < SoftLimit(bufSize)
  {
  }

  /** No call with `k` events drops any silently, whatever an accurate gauge reads. */
  ghost predicate SafeSize(k: nat, bufSize: nat) {
    forall s: WriterState, events: seq<Event> ::
      |s.ch| <= bufSize && s.pending == |s.ch| && |events| == k ==> !DropsSilently(s, events, bufSize)
  }

  /** As long as nothing interleaves; for interleaved calls see WriterCalls.NeverSilentIff. */
  lemma SafeSizeIff(k: nat, bufSize: nat)
    ensures SafeSize(k, bufSize) <==> SoftLimit(bufSize) == 0 || k <= bufSize - SoftLimit(bufSize) + 1
  {
    if SoftLimit(bufSize) == 0 || k <= bufSize - SoftLimit(bufSize) + 1 {
      forall s: WriterState, events: seq<Event> | |s.ch| <= bufSize && s.pending == |s.ch| && |events| == k
        ensures !DropsSilently(s, events, bufSize)
      {
        DropsSilentlyIff(s, events, bufSize);
      }
    } else {
      var s, events := JustBelow(bufSize), seq(k, _ => Event("", 0));
      DropsSilentlyIff(s, events, bufSize);
      assert DropsSilently(s, events, bufSize);
    }
  }

  /** A writer filled to one event below the soft limit. */
  function JustBelow(bufSize: nat): (s: WriterState)
    requires SoftLimit(bufSize) >= 1
    ensures |s.ch| == SoftLimit(bufSize) - 1 == s.pending && |s.ch| <= bufSize
  {
    var ch := seq(SoftLimit(bufSize) - 1, _ => Event("", 0));
    WriterState(ch, |ch|, 0, ch)
  }

  /** With a buffer of ten, seven events in it and four more: one is dropped and no error is returned. */
  lemma DropsOneOfFour(e: Event)
    ensures JustBelow(10).pending == 7 && DropsSilently(JustBelow(10), [e, e, e, e], 10)
    ensures AfterWrite(JustBelow(10), [e, e, e, e], 10).dropped == 1
  {
    DropsSilentlyIff(JustBelow(10), [e, e, e, e], 10);
  }

  class Writer {
    const bufSize: nat
    var ch: seq<Event>
    var pending: int
    var droppedTotal: int
    ghost var offered: seq<Event>

    ghost predicate Valid()
      reads this
    {
      |ch| <= bufSize
    }

    ghost function Snapshot(): WriterState
      reads this
    {
      WriterState(ch, pending, droppedTotal, offered)
    }

    constructor (bufSize: nat)
      ensures Valid() && this.bufSize == bufSize && Snapshot() == WriterState([], 0, 0, [])
    {
      this.bufSize := bufSize;
      ch, pending, droppedTotal := [], 0, 0;
      offered := [];
    }

    /** The answer depends only on the gauge as it was before the call. */
    method Write(events: seq<Event>) returns (backpressure: bool)
      requires Valid()
      modifies this
      ensures Valid()
      ensures Snapshot() == AfterWrite(old(Snapshot()), events, bufSize)
      ensures backpressure <==> old(pending) >= SoftLimit(bufSize)
    {
      ghost var s := Snapshot();
      var softLimit := SoftLimit(bufSize);
      var before := pending;
      AfterWriteNil(s, bufSize);
      for i := 0 to |events|
        invariant Valid() && Snapshot() == AfterWrite(s, events[..i], bufSize)
      {
        hide AfterWrite;
        assert events[..i + 1] == events[..i] + [events[i]];
        AfterWriteSnoc(s, events[..i], events[i], bufSize);
        if |ch| < bufSize {
          ch := ch + [events[i]];
          pending := pending + 1;
        } else {
          droppedTotal := droppedTotal + 1;
        }
        offered := offered + [events[i]];
      }
      assert events[..|events|] == events;
      return before >= softLimit;
    }
  }

  // ---------------------------------------------------------------- routing

  /** The shard both ShardFor and the sharded writer pick. */
  function ShardFor(fnv: string -> nat, app: string, n: nat): nat
    requires n > 0
  {
    if n == 1 then 0 else fnv(app) % n
  }

  /** Pool.ShardFor's special case and the sharded writer's formula agree: FNV-1a modulo the number of shards. */
  lemma ShardForIsModulo(fnv: string -> nat, app: string, n: nat)
    requires n > 0
    ensures ShardFor(fnv, app, n) == fnv(app) % n < n
  {
  }

  /** The events of shard `i`, in input order. */
  function ShardEvents(fnv: string -> nat, events: seq<Event>, n: nat, i: nat): seq<Event>
    requires n > 0
  {
    if events == [] then []
    else
      var e, r := events[|events| - 1], ShardEvents(fnv, events[..|events| - 1], n, i);
      if ShardFor(fnv, e.app, n) == i then r + [e] else r
  }

  function AppEvents(events: seq<Event>, app: string): seq<Event> {
    if events == [] then []
    else
      var e, r := events[|events| - 1], AppEvents(events[..|events| - 1], app);
      if e.app == app then r + [e] else r
  }

  lemma ShardEventsSnoc(fnv: string -> nat, events: seq<Event>, e: Event, n: nat, i: nat)
    requires n > 0
    ensures ShardEvents(fnv, events + [e], n, i)
            == if ShardFor(fnv, e.app, n) == i then ShardEvents(fnv, events, n, i) + [e] else ShardEvents(fnv, events, n, i)
  {
    assert (events + [e])[..|events|] == events;
  }

  /** All events of an app are in its shard, in their input order; no other shard has any of them. */
  lemma {:induction false} AppStaysTogether(fnv: string -> nat, events: seq<Event>, n: nat, app: string, i: nat)
    requires n > 0
    ensures AppEvents(ShardEvents(fnv, events, n, i), app)
            == if i == ShardFor(fnv, app, n) then AppEvents(events, app) else []
  {
    if events != [] {
      var front, e := events[..|events| - 1], events[|events| - 1];
      AppStaysTogether(fnv, front, n, app, i);
      var r := ShardEvents(fnv, front, n, i);
      assert (r + [e])[..|r|] == r;
    }
  }

  /** The events of the first `k` shards, shard after shard. */
  function Concatenated(fnv: string -> nat, events: seq<Event>, n: nat, k: nat): seq<Event>
    requires n > 0
  {
    if k == 0 then [] else Concatenated(fnv, events, n, k - 1) + ShardEvents(fnv, events, n, k - 1)
  }

  function Times(s: seq<Event>, q: Event): nat {
    multiset(s)[q]
  }

  lemma TimesAppend(a: seq<Event>, b: seq<Event>, q: Event)
    ensures Times(a + b, q) == Times(a, q) + Times(b, q)
    ensures Times([], q) == 0 && Times([q], q) == 1
  {
  }

  lemma TimesSnoc(s: seq<Event>, e: Event, q: Event)
    ensures Times(s + [e], q) == Times(s, q) + if e == q then 1 else 0
  {
  }

  lemma ShardTimesSnoc(fnv: string -> nat, events: seq<Event>, e: Event, n: nat, i: nat, q: Event)
    requires n > 0
    ensures Times(ShardEvents(fnv, events + [e], n, i), q)
            == Times(ShardEvents(fnv, events, n, i), q) + if ShardFor(fnv, e.app, n) == i && e == q then 1 else 0
  {
    hide ShardEvents, ShardFor, Times;
    ShardEventsSnoc(fnv, events, e, n, i);
    TimesSnoc(ShardEvents(fnv, events, n, i), e, q);
  }

  lemma {:induction false} ConcatenatedSnoc(fnv: string -> nat, events: seq<Event>, e: Event, n: nat, k: nat, q: Event)
    requires n > 0
    ensures Times(Concatenated(fnv, events + [e], n, k), q)
            == Times(Concatenated(fnv, events, n, k), q) + if ShardFor(fnv, e.app, n) < k && e == q then 1 else 0
  {
    hide ShardEvents, ShardFor, Times;
    if k > 0 {
      ConcatenatedSnoc(fnv, events, e, n, k - 1, q);
      ShardTimesSnoc(fnv, events, e, n, k - 1, q);
      TimesAppend(Concatenated(fnv, events, n, k - 1), ShardEvents(fnv, events, n, k - 1), q);
      TimesAppend(Concatenated(fnv, events + [e], n, k - 1), ShardEvents(fnv, events + [e], n, k - 1), q);
    }
  }

  lemma {:induction false} ConcatenatedNil(fnv: string -> nat, n: nat, k: nat)
    requires n > 0
    ensures Concatenated(fnv, [], n, k) == []
  {
    if k > 0 {
      ConcatenatedNil(fnv, n, k - 1);
    }
  }

  lemma {:induction false} ShardsHoldEach(fnv: string -> nat, events: seq<Event>, n: nat, q: Event)
    requires n > 0
    ensures Times(Concatenated(fnv, events, n, n), q) == Times(events, q)
  {
    if events == [] {
      ConcatenatedNil(fnv, n, n);
    } else {
      var front, e := events[..|events| - 1], events[|events| - 1];
      assert events == front + [e];
      ShardsHoldEach(fnv, front, n, q);
      ShardForIsModulo(fnv, e.app, n);
      hide Concatenated, ShardFor, Times;
      ConcatenatedSnoc(fnv, front, e, n, n, q);
      TimesSnoc(front, e, q);
    }
  }

  /** The shards partition the input. */
  lemma ShardsPartition(fnv: string -> nat, events: seq<Event>, n: nat)
    requires n > 0
    ensures multiset(Concatenated(fnv, events, n, n)) == multiset(events)
  {
    forall q ensures multiset(Concatenated(fnv, events, n, n))[q] == multiset(events)[q] {
      ShardsHoldEach(fnv, events, n, q);
    }
  }

  lemma {:induction false} OneShardTakesAll(fnv: string -> nat, events: seq<Event>)
    ensures ShardEvents(fnv, events, 1, 0) == events
  {
    if events != [] {
      OneShardTakesAll(fnv, events[..|events| - 1]);
      assert events == events[..|events| - 1] + [events[|events| - 1]];
    }
  }

  // ---------------------------------------------------------------- order per app, from Write to ClickHouse

  lemma {:induction false} ShardEventsAppend(fnv: string -> nat, a: seq<Event>, b: seq<Event>, n: nat, i: nat)
    requires n > 0
    ensures ShardEvents(fnv, a + b, n, i) == ShardEvents(fnv, a, n, i) + ShardEvents(fnv, b, n, i)
  {
    if b == [] {
      assert a + b == a;
    } else {
      var front, e := b[..|b| - 1], b[|b| - 1];
      assert b == front + [e] && a + b == (a + front) + [e];
      ShardEventsAppend(fnv, a, front, n, i);
      ShardEventsSnoc(fnv, a + front, e, n, i);
      ShardEventsSnoc(fnv, front, e, n, i);
    }
  }

  /** Leaving events out of a list leaves events out of each app's part of it. */
  lemma {:induction false} PartOfApp(a: seq<Event>, b: seq<Event>, app: string)
    requires IsPart(a, b)
    ensures IsPart(AppEvents(a, app), AppEvents(b, app))
    decreases |b|
  {
    if a != [] {
      var b', y := b[..|b| - 1], b[|b| - 1];
      assert b == b' + [y];
      if IsPart(a, b') {
        PartOfApp(a, b', app);
        PartSnoc(AppEvents(a, app), AppEvents(b', app), y);
      } else {
        var a' := a[..|a| - 1];
        assert a == a' + [y];
        PartOfApp(a', b', app);
        PartSnoc(AppEvents(a', app), AppEvents(b', app), y);
      }
    }
  }

  /** The input of several calls of Write, one after the other. */
  function Together(calls: seq<seq<Event>>): seq<Event> {
    if calls == [] then [] else Together(calls[..|calls| - 1]) + calls[|calls| - 1]
  }

  /** What these calls offer to the writer of shard `i`, call after call. */
  function OfferedTo(fnv: string -> nat, calls: seq<seq<Event>>, n: nat, i: nat): seq<Event>
    requires n > 0
  {
    if calls == [] then []
    else OfferedTo(fnv, calls[..|calls| - 1], n, i) + ShardEvents(fnv, calls[|calls| - 1], n, i)
  }

  lemma {:induction false} OfferedIsSharded(fnv: string -> nat, calls: seq<seq<Event>>, n: nat, i: nat)
    requires n > 0
    ensures OfferedTo(fnv, calls, n, i) == ShardEvents(fnv, Together(calls), n, i)
  {
    if calls != [] {
      var front, last := calls[..|calls| - 1], calls[|calls| - 1];
      OfferedIsSharded(fnv, front, n, i);
      ShardEventsAppend(fnv, Together(front), last, n, i);
    }
  }

  lemma {:induction false} PrefixIsPart(a: seq<Event>, k: nat)
    requires k <= |a|
    ensures IsPart(a[..k], a)
  {
    if k == |a| {
      PartOfItself(a);
      assert a[..k] == a;
    } else {
      var front := a[..|a| - 1];
      PrefixIsPart(front, k);
      assert front[..k] == a[..k] && a == front + [a[|a| - 1]];
      PartSnoc(a[..k], front, a[|a| - 1]);
    }
  }

  lemma {:induction false} PartOfItself(a: seq<Event>)
    ensures IsPart(a, a)
  {
    if a != [] {
      PartOfItself(a[..|a| - 1]);
    }
  }

  lemma {:induction false} PartTransitive(a: seq<Event>, b: seq<Event>, c: seq<Event>)
    requires IsPart(a, b) && IsPart(b, c)
    ensures IsPart(a, c)
    decreases |c|, |b|
  {
    if a != [] {
      var b', c' := b[..|b| - 1], c[..|c| - 1];
      if IsPart(b, c') {
        PartTransitive(a, b, c');
      } else if IsPart(a, b') {
        PartTransitive(a, b', c');
      } else {
        PartTransitive(a[..|a| - 1], b', c');
      }
    }
  }

  /**
   * "Preserving per-app ordering": while a caller's Writes are under way, whatever the batching loop of shard `i` does,
   * what it has handed to doFlush of an app is what the calls contained of it, in the order of the calls, with dropped
   * and waiting events left out; and a shard other than the app's own never flushes any of it.
   */
  lemma FlushedAppOrder(fnv: string -> nat, calls: seq<seq<Event>>, n: nat, i: nat, app: string,
                        steps: seq<Step>, bufSize: nat)
    requires n > 0 && bufSize >= 1
    requires Run(steps, bufSize).offered <= OfferedTo(fnv, calls, n, i)
    ensures var flushed := AppEvents(Flat(Run(steps, bufSize).batches), app);
            && IsPart(flushed, AppEvents(Together(calls), app))
            && (i != ShardFor(fnv, app, n) ==> flushed == [])
  {
    hide Run, IsPart, AppEvents, ShardEvents, OfferedTo, ShardFor;
    var offered, input := Run(steps, bufSize).offered, Together(calls);
    var flat := Flat(Run(steps, bufSize).batches);
    FlushedKeepsOfferedOrder(steps, bufSize);
    OfferedIsSharded(fnv, calls, n, i);
    var shard := ShardEvents(fnv, input, n, i);
    PrefixIsPart(shard, |offered|);
    assert shard[..|offered|] == offered;
    PartTransitive(flat, offered, shard);
    PartOfApp(flat, shard, app);
    AppStaysTogether(fnv, input, n, app, i);
    if i != ShardFor(fnv, app, n) {
      PartOfNothing(AppEvents(flat, app));
      EmptyIsPart(AppEvents(input, app));
    }
  }

  lemma PartOfNothing(a: seq<Event>)
    ensures IsPart(a, []) ==> a == []
  {
  }

  lemma EmptyIsPart(b: seq<Event>)
    ensures IsPart([], b)
  {
  }

  // ---------------------------------------------------------------- the sharded writer

  class ShardedWriter {
    const fnv: string -> nat
    const writers: seq<Writer>

    ghost predicate Valid()
      reads this, writers
    {
      && |writers| > 0
      && (forall i, j :: 0 <= i < j < |writers| ==> writers[i] != writers[j])
      && (forall i :: 0 <= i < |writers| ==> writers[i].Valid())
    }

    constructor (fnv: string -> nat, writers: seq<Writer>)
      ensures this.fnv == fnv && this.writers == writers
    {
      this.fnv, this.writers := fnv, writers;
    }

    /** The grouping loop. */
    method Group(events: seq<Event>) returns (buckets: map<nat, seq<Event>>)
      requires |writers| > 1
      ensures forall i: nat :: i in buckets <==> i < |writers| && ShardEvents(fnv, events, |writers|, i) != []
      ensures forall i :: i in buckets ==> buckets[i] == ShardEvents(fnv, events, |writers|, i)
    {
      buckets := map[];
      for k := 0 to |events|
        invariant forall i: nat :: i in buckets <==> i < |writers| && ShardEvents(fnv, events[..k], |writers|, i) != []
        invariant forall i :: i in buckets ==> buckets[i] == ShardEvents(fnv, events[..k], |writers|, i)
      {
        var e := events[k];
        assert events[..k + 1] == events[..k] + [e];
        var idx := fnv(e.app) % |writers|;
        forall i: nat {
          ShardEventsSnoc(fnv, events[..k], e, |writers|, i);
        }
        buckets := buckets[idx := (if idx in buckets then buckets[idx] else []) + [e]];
      }
      assert events[..|events|] == events;
    }

    ghost function Snapshots(): (r: seq<WriterState>)
      reads this, writers
      ensures |r| == |writers| && forall i :: 0 <= i < |writers| ==> r[i] == writers[i].Snapshot()
    {
      seq(|writers|, i requires 0 <= i < |writers| reads this, writers => writers[i].Snapshot())
    }

    /** Shard `i` stood at the soft limit or above before the call. */
    ghost predicate Pressed(before: seq<WriterState>, i: nat)
      requires i < |writers| == |before|
    {
      before[i].pending >= SoftLimit(writers[i].bufSize)
    }

    /** The loop over the buckets, in any order. */
    method WriteBuckets(buckets: map<nat, seq<Event>>) returns (backpressure: bool)
      requires Valid() && forall i :: i in buckets ==> i < |writers|
      modifies writers
      ensures Valid()
      ensures forall i: nat :: i < |writers| ==>
                Snapshots()[i] == if i in buckets then AfterWrite(old(Snapshots())[i], buckets[i], writers[i].bufSize)
                                  else old(Snapshots())[i]
      ensures backpressure <==> exists i: nat | i < |writers| && i in buckets :: Pressed(old(Snapshots()), i)
    {
      hide AfterWrite, SoftLimit;
      ghost var before := Snapshots();
      var todo := buckets.Keys;
      ghost var pressed: set<nat> := {};
      backpressure := false;
      while todo != {}
        invariant todo <= buckets.Keys && Valid()
        invariant forall i: nat :: i < |writers| ==> writers[i].Snapshot() == Visited(before, buckets, todo, i)
        invariant forall i :: i in pressed <==> i in buckets && i !in todo && Pressed(before, i)
        invariant backpressure <==> pressed != {}
        decreases todo
      {
        var idx :| idx in todo;
        assert writers[idx].Snapshot() == before[idx];
        var err := writers[idx].Write(buckets[idx]);
        assert err <==> Pressed(before, idx);
        todo := todo - {idx};
        pressed := if err then pressed + {idx} else pressed;
        backpressure := backpressure || err;
      }
    }

    /** Shard `i` while the buckets in `todo` are still to be written. */
    ghost function Visited(before: seq<WriterState>, buckets: map<nat, seq<Event>>, todo: set<nat>, i: nat): WriterState
      requires i < |writers| == |before| && |before[i].ch| <= writers[i].bufSize
    {
      if i in buckets && i !in todo then AfterWrite(before[i], buckets[i], writers[i].bufSize) else before[i]
    }

    /**
     * Every shard's writer does what it would do with a single Write of that shard's events, whatever order the
     * buckets are visited in; and whether an error is returned depends only on the gauges of the shards written to.
     */
    method Write(events: seq<Event>) returns (backpressure: bool)
      requires Valid()
      modifies writers
      ensures Valid()
      ensures forall i: nat :: i < |writers| ==>
                Snapshots()[i]
                == AfterWrite(old(Snapshots())[i], ShardEvents(fnv, events, |writers|, i), writers[i].bufSize)
      ensures backpressure <==>
                exists i: nat | i < |writers| && (|writers| == 1 || ShardEvents(fnv, events, |writers|, i) != []) ::
                  Pressed(old(Snapshots()), i)
    {
      hide AfterWrite, ShardEvents, ShardFor;
      ghost var before := Snapshots();
      if |writers| == 1 {
        OneShardTakesAll(fnv, events);
        backpressure := writers[0].Write(events);
        assert backpressure <==> Pressed(before, 0);
        return;
      }
      var buckets := Group(events);
      backpressure := WriteBuckets(buckets);
      forall i: nat | i < |writers| && i !in buckets
        ensures AfterWrite(before[i], ShardEvents(fnv, events, |writers|, i), writers[i].bufSize) == before[i]
      {
        AfterWriteNil(before[i], writers[i].bufSize);
      }
    }
  }
}
