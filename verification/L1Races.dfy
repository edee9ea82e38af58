/**
 * The in-process cache under concurrency (internal/cache/l1.go): every locked section, every operation on
 * `revalidating` and every clock reading is a step of its own, and steps of different goroutines interleave freely.
 */
module L1Races {
  import opened L1

  /** Where a goroutine inside Get stands. `truth` is the latest entry set for the key when it was looked up. */
  datatype Reader =
    | Looked(key: string, e: Entry, truth: Entry)
    | Unexpired(key: string, e: Entry, truth: Entry)
    | Dropping(key: string)
    | Electing(key: string, e: Entry, truth: Entry)

  /** A value that goes to a caller, the time of the expiry check, and the entry that was the latest at lookup. */
  datatype Served = Served(key: string, value: Bytes, at: int, truth: Entry)

  /**
   * `latest` is the abstract map: for each key the last entry set and not deleted since. `elected` counts, per key,
   * the reads that were told to refresh since the flag was last cleared.
   */
  datatype World = World(
    cache: State,
    latest: map<string, Entry>,
    readers: map<nat, Reader>,
    served: seq<Served>,
    elected: map<string, nat>)

  const START := World(State(map[], [], {}), map[], map[], [], map[])

  datatype Step =
    | SetEntry(key: string, e: Entry)
    | DeleteEntry(key: string)
    | ClearKey(key: string)
    | Lookup(tid: nat, key: string)
    | CheckExpiry(tid: nat, now: int)
    | CheckStale(tid: nat, now: int)
    | DropExpired(tid: nat)
    | Elect(tid: nat)
    | Sweep(now: int)

  function Elected(w: World, key: string): nat {
    if key in w.elected then w.elected[key] else 0
  }

  /** One atomic step; a step that is not enabled changes nothing. */
  function Next(w: World, step: Step, max: nat): World {
    match step
    case SetEntry(key, e) => w.(cache := Put(w.cache, key, e), latest := w.latest[key := e])
    case DeleteEntry(key) => w.(cache := Drop(w.cache, key), latest := w.latest - {key})
    case ClearKey(key) => w.(cache := ClearFlag(w.cache, key), elected := w.elected[key := 0])
    case Lookup(tid, key) =>
      if tid !in w.readers && key in w.cache.entries && key in w.latest
      then w.(readers := w.readers[tid := Looked(key, w.cache.entries[key], w.latest[key])]) else w
    case CheckExpiry(tid, now) =>
      if tid !in w.readers || !w.readers[tid].Looked? then w
      else
        var Looked(key, e, truth) := w.readers[tid];
        if e.IsExpired(now) then w.(readers := w.readers[tid := Dropping(key)])
        else w.(readers := w.readers[tid := Unexpired(key, e, truth)], served := w.served + [Served(key, e.value, now, truth)])
    case CheckStale(tid, now) =>
      if tid !in w.readers || !w.readers[tid].Unexpired? then w
      else
        var Unexpired(key, e, truth) := w.readers[tid];
        if e.IsStale(now) then w.(readers := w.readers[tid := Electing(key, e, truth)])
        else w.(readers := w.readers - {tid})
    case DropExpired(tid) =>
      if tid !in w.readers || !w.readers[tid].Dropping? then w
      else w.(readers := w.readers - {tid}, cache := Drop(w.cache, w.readers[tid].key))
    case Elect(tid) =>
      if tid !in w.readers || !w.readers[tid].Electing? then w
      else
        var key := w.readers[tid].key;
        var won := if key in w.cache.revalidating then 0 else 1;
        w.(readers := w.readers - {tid}, cache := ClaimFlag(w.cache, key),
           elected := w.elected[key := Elected(w, key) + won])
    case Sweep(now) => w.(cache := Swept(w.cache, max, now))
  }

  function Run(steps: seq<Step>, max: nat): World {
    if steps == [] then START else Next(Run(steps[..|steps| - 1], max), steps[|steps| - 1], max)
  }

  ghost predicate Truthful(r: Served) {
    r.value == r.truth.value && r.at <= r.truth.expiresAt
  }

  /** What is cached is what was set last. */
  ghost predicate CacheCorrect(w: World) {
    Current(w.cache.entries, w.cache.order, w.latest)
  }

  ghost predicate Current(entries: map<string, Entry>, order: seq<string>, latest: map<string, Entry>) {
    Covered(entries, order) && forall k :: k in entries ==> k in latest && latest[k] == entries[k]
  }

  ghost predicate ReadersCorrect(w: World) {
    && (forall t :: t in w.readers && !w.readers[t].Dropping? ==> w.readers[t].e == w.readers[t].truth)
    && (forall i :: 0 <= i < |w.served| ==> Truthful(w.served[i]))
  }

  ghost predicate ElectionCorrect(w: World) {
    forall k :: Elected(w, k) == if k in w.cache.revalidating then 1 else 0
  }

  ghost predicate Inv(w: World) {
    CacheCorrect(w) && ReadersCorrect(w) && ElectionCorrect(w)
  }

  lemma PutIsCurrent(s: State, latest: map<string, Entry>, key: string, e: Entry)
    requires Current(s.entries, s.order, latest)
    ensures var t := Put(s, key, e); Current(t.entries, t.order, latest[key := e])
  {
    PutKeepsCover(s, key, e);
  }

  lemma DropIsCurrent(s: State, latest: map<string, Entry>, key: string)
    requires Current(s.entries, s.order, latest)
    ensures var t := Drop(s, key); Current(t.entries, t.order, latest) && Current(t.entries, t.order, latest - {key})
  {
    DropKeepsCover(s, key);
  }

  lemma SweepIsCurrent(s: State, latest: map<string, Entry>, max: nat, now: int)
    requires Current(s.entries, s.order, latest)
    ensures var t := Swept(s, max, now); Current(t.entries, t.order, latest)
  {
    SweepRestoresBound(s, max, now);
    hide Swept;
  }

  lemma StepKeepsCache(w: World, step: Step, max: nat)
    requires CacheCorrect(w)
    ensures CacheCorrect(Next(w, step, max))
  {
    hide Swept, Put, Drop, Current;
    match step
    case SetEntry(key, e) => PutIsCurrent(w.cache, w.latest, key, e);
    case DeleteEntry(key) => DropIsCurrent(w.cache, w.latest, key);
    case DropExpired(tid) =>
      if tid in w.readers && w.readers[tid].Dropping? { DropIsCurrent(w.cache, w.latest, w.readers[tid].key); }
    case Sweep(now) => SweepIsCurrent(w.cache, w.latest, max, now);
    case _ =>
  }

  lemma StepKeepsReaders(w: World, step: Step, max: nat)
    requires CacheCorrect(w) && ReadersCorrect(w)
    ensures ReadersCorrect(Next(w, step, max))
  {
    hide Swept, Put, Covered;
  }

  lemma StepKeepsElection(w: World, step: Step, max: nat)
    requires ElectionCorrect(w)
    ensures ElectionCorrect(Next(w, step, max))
  {
    hide Swept;
    if step.Sweep? {
      SweepKeepsFlags(w.cache, max, step.now);
    }
  }

  lemma SweepKeepsFlags(s: State, max: nat, now: int)
    ensures Swept(s, max, now).revalidating == s.revalidating
  {
  }

  lemma {:induction false} RunKeepsInv(steps: seq<Step>, max: nat)
    ensures Inv(Run(steps, max))
  {
    if steps != [] {
      RunKeepsInv(steps[..|steps| - 1], max);
      var before, step := Run(steps[..|steps| - 1], max), steps[|steps| - 1];
      StepKeepsCache(before, step, max);
      StepKeepsReaders(before, step, max);
      StepKeepsElection(before, step, max);
    }
  }

  /**
   * In every interleaving: whatever is served is the latest value set for its key at the moment it was looked up,
   * not expired when checked; and between two clearings of a key's flag at most one read is told to refresh.
   */
  lemma ServesLatestElectsOne(steps: seq<Step>, max: nat)
    ensures var w := Run(steps, max);
            && (forall r :: r in w.served ==> r.value == r.truth.value && r.at <= r.truth.expiresAt)
            && (forall k :: Elected(w, k) <= 1)
            && (forall k :: k in w.cache.entries ==> k in w.latest && w.cache.entries[k] == w.latest[k])
  {
    RunKeepsInv(steps, max);
    forall r | r in Run(steps, max).served ensures Truthful(r) {
      var i :| 0 <= i < |Run(steps, max).served| && Run(steps, max).served[i] == r;
    }
  }

  /** A reader has found the entry expired and is about to delete it. */
  lemma ExpiredReader(key: string, e: Entry, max: nat)
    ensures Run([SetEntry(key, e), Lookup(0, key), CheckExpiry(0, e.expiresAt + 1)], max)
            == START.(cache := State(map[key := e], [key], {}), latest := map[key := e], readers := map[0 := Dropping(key)])
  {
    hide Run;
    var look, check := Lookup(0, key), CheckExpiry(0, e.expiresAt + 1);
    RunNil(max);
    RunSnoc([], SetEntry(key, e), max);
    assert [] + [SetEntry(key, e)] == [SetEntry(key, e)];
    RunSnoc([SetEntry(key, e)], look, max);
    assert [SetEntry(key, e)] + [look] == [SetEntry(key, e), look];
    RunSnoc([SetEntry(key, e), look], check, max);
    assert [SetEntry(key, e), look] + [check] == [SetEntry(key, e), look, check];
  }

  /** The delete of an expired entry is a separate step, so it can throw away a value set in between. */
  lemma RacingSetIsLost(key: string, expired: Entry, renewed: Entry, max: nat)
    requires expired != renewed
    ensures var w := Run([SetEntry(key, expired), Lookup(0, key), CheckExpiry(0, expired.expiresAt + 1),
                          SetEntry(key, renewed), ClearKey(key), DropExpired(0)], max);
            key in w.latest && w.latest[key] == renewed && key !in w.cache.entries
    ensures var before := Run([SetEntry(key, expired), Lookup(0, key), CheckExpiry(0, expired.expiresAt + 1),
                               SetEntry(key, renewed), ClearKey(key)], max);
            key in before.cache.entries && before.cache.entries[key] == renewed
  {
    hide Run;
    var s3 := [SetEntry(key, expired), Lookup(0, key), CheckExpiry(0, expired.expiresAt + 1)];
    ExpiredReader(key, expired, max);
    RunSnoc(s3, SetEntry(key, renewed), max);
    RunSnoc(s3 + [SetEntry(key, renewed)], ClearKey(key), max);
    RunSnoc(s3 + [SetEntry(key, renewed)] + [ClearKey(key)], DropExpired(0), max);
    assert s3 + [SetEntry(key, renewed)] + [ClearKey(key)]
        == [s3[0], s3[1], s3[2], SetEntry(key, renewed), ClearKey(key)];
    assert s3 + [SetEntry(key, renewed)] + [ClearKey(key)] + [DropExpired(0)]
        == [s3[0], s3[1], s3[2], SetEntry(key, renewed), ClearKey(key), DropExpired(0)];
  }

  lemma RunNil(max: nat)
    ensures Run([], max) == START
  {
  }

  lemma RunSnoc(steps: seq<Step>, step: Step, max: nat)
    ensures Run(steps + [step], max) == Next(Run(steps, max), step, max)
  {
    assert (steps + [step])[..|steps|] == steps;
  }
}
