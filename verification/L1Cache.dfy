/**
 * The in-process cache (internal/cache/l1.go): bounded, with expiry and stale-while-revalidate.
 *
 * The locked sections and the operations on `revalidating` are separate atomic steps, given by the functions
 * below. The class strings them together as the methods do; module L1Races interleaves them.
 */
module L1 {
  import opened Common

  /** JSON text. */
  type Bytes = string

  datatype Entry = Entry(value: Bytes, expiresAt: int, staleAt: int) {
    predicate IsExpired(now: int) { now > expiresAt }

    predicate IsStale(now: int) { staleAt < now < expiresAt }
  }

  function NewEntry(value: Bytes, ttl: int, staleTtl: int, now: int): Entry {
    Entry(value, now + ttl, if 0 < staleTtl < ttl then now + staleTtl else now + ttl)
  }

  datatype GetResult = Miss | Hit(value: Bytes, needsRefresh: bool)

  datatype State = State(entries: map<string, Entry>, order: seq<string>, revalidating: set<string>)

  // ---------------------------------------------------------------- atomic steps

  /** The locked section of Set. */
  function Put(s: State, key: string, e: Entry): State {
    s.(entries := s.entries[key := e], order := if key in s.entries then s.order else s.order + [key])
  }

  /** `revalidating.Delete` at the end of Set and Delete. */
  function ClearFlag(s: State, key: string): State {
    s.(revalidating := s.revalidating - {key})
  }

  /** The locked section of Delete, and of Get for an expired entry. The order slot stays. */
  function Drop(s: State, key: string): State {
    s.(entries := s.entries - {key})
  }

  /** `revalidating.LoadOrStore`. */
  function ClaimFlag(s: State, key: string): State {
    s.(revalidating := s.revalidating + {key})
  }

  /** Get, run without interruption; the two clock readings are those of IsExpired and IsStale. */
  function AfterGet(s: State, key: string, now1: int, now2: int): (State, GetResult) {
    if key !in s.entries then (s, Miss)
    else
      var e := s.entries[key];
      if e.IsExpired(now1) then (Drop(s, key), Miss)
      else if e.IsStale(now2) then (ClaimFlag(s, key), Hit(e.value, key !in s.revalidating))
      else (s, Hit(e.value, false))
  }

  // ---------------------------------------------------------------- eviction

  function Live(entries: map<string, Entry>, now: int): map<string, Entry> {
    map k | k in entries && !entries[k].IsExpired(now) :: entries[k]
  }

  /** The loop that pops the front of the order slice while the cache is over capacity. */
  function PopOldest(entries: map<string, Entry>, order: seq<string>, max: nat): (map<string, Entry>, seq<string>)
    decreases |order|
  {
    if |entries| > max && order != [] then PopOldest(entries - {order[0]}, order[1..], max) else (entries, order)
  }

  /** The slots of `order` whose key is in `keys`. */
  function KeepIn(order: seq<string>, keys: set<string>): seq<string> {
    if order == [] then []
    else
      var r := KeepIn(order[..|order| - 1], keys);
      if order[|order| - 1] in keys then r + [order[|order| - 1]] else r
  }

  function Swept(s: State, max: nat, now: int): State {
    var (entries, order) := PopOldest(Live(s.entries, now), s.order, max);
    State(entries, KeepIn(order, entries.Keys), s.revalidating)
  }

  // ---------------------------------------------------------------- the order slice covers the entries

  /** Every cached key has a slot; slots may be stale or doubled. */
  ghost predicate Covered(entries: map<string, Entry>, order: seq<string>) {
    forall k :: k in entries ==> k in order
  }

  lemma KeepInMembers(order: seq<string>, keys: set<string>)
    ensures forall k :: k in KeepIn(order, keys) <==> k in order && k in keys
  {
    if order != [] {
      KeepInMembers(order[..|order| - 1], keys);
      assert order == order[..|order| - 1] + [order[|order| - 1]];
    }
  }

  lemma PutKeepsCover(s: State, key: string, e: Entry)
    requires Covered(s.entries, s.order)
    ensures var t := Put(s, key, e); Covered(t.entries, t.order)
  {
  }

  lemma DropKeepsCover(s: State, key: string)
    requires Covered(s.entries, s.order)
    ensures var t := Drop(s, key); Covered(t.entries, t.order)
  {
  }

  lemma {:induction false} PopKeepsCover(entries: map<string, Entry>, order: seq<string>, max: nat)
    requires Covered(entries, order)
    ensures var (es, os) := PopOldest(entries, order, max);
            && Covered(es, os) && |es| <= max
            && (forall k :: k in es ==> k in entries && es[k] == entries[k])
            && (|entries| <= max ==> es == entries)
            && (|entries| > max ==> |es| == max)
    decreases |order|
  {
    if order == [] {
      assert entries == map[];
    } else if |entries| > max {
      var rest := entries - {order[0]};
      forall k | k in rest ensures k in order[1..] {
        assert order == [order[0]] + order[1..];
      }
      DropOneSize(entries, order[0]);
      PopKeepsCover(rest, order[1..], max);
    }
  }

  lemma DropOneSize(entries: map<string, Entry>, k: string)
    ensures |entries - {k}| == if k in entries then |entries| - 1 else |entries|
  {
    assert (entries - {k}).Keys == entries.Keys - {k};
    if k !in entries {
      assert entries - {k} == entries;
    }
  }

  /** The janitor restores the bound, leaves nothing expired, and makes the slots list exactly the entries. */
  lemma SweepRestoresBound(s: State, max: nat, now: int)
    requires Covered(s.entries, s.order)
    ensures var t := Swept(s, max, now);
            && |t.entries| == Min(max, |Live(s.entries, now)|)
            && (forall k :: k in t.entries ==> k in s.entries && t.entries[k] == s.entries[k] && now <= t.entries[k].expiresAt)
            && (forall k :: k in t.order <==> k in t.entries)
    ensures var t, unexpired := Swept(s, max, now), set k | k in s.entries && now <= s.entries[k].expiresAt;
            && |t.entries| == Min(max, |unexpired|) && t.entries.Keys <= unexpired
            && (|unexpired| <= max ==> t.entries.Keys == unexpired)
  {
    var live := Live(s.entries, now);
    assert live.Keys == set k | k in s.entries && now <= s.entries[k].expiresAt;
    PopKeepsCover(live, s.order, max);
    var (es, os) := PopOldest(live, s.order, max);
    KeepInMembers(os, es.Keys);
  }

  // ---------------------------------------------------------------- who survives

  function Last(s: seq<string>, n: nat): seq<string> {
    if n <= |s| then s[|s| - n..] else s
  }

  /** The cached keys in the order of their first slot. */
  function ByFirstSlot(entries: map<string, Entry>, order: seq<string>): seq<string> {
    Dedup(KeepIn(order, entries.Keys))
  }

  lemma KeepInSnoc(order: seq<string>, x: string, keys: set<string>)
    ensures KeepIn(order + [x], keys) == if x in keys then KeepIn(order, keys) + [x] else KeepIn(order, keys)
  {
    assert (order + [x])[..|order|] == order;
  }

  lemma {:induction false} KeepInCons(x: string, order: seq<string>, keys: set<string>)
    ensures KeepIn([x] + order, keys) == if x in keys then [x] + KeepIn(order, keys) else KeepIn(order, keys)
  {
    if order == [] {
      assert [x] + order == [] + [x];
      KeepInSnoc([], x, keys);
    } else {
      var front, last := order[..|order| - 1], order[|order| - 1];
      KeepInCons(x, front, keys);
      assert [x] + order == ([x] + front) + [last] && order == front + [last];
      KeepInSnoc([x] + front, last, keys);
      KeepInSnoc(front, last, keys);
    }
  }

  lemma {:induction false} KeepInMinus(order: seq<string>, keys: set<string>, x: string)
    ensures KeepIn(order, keys - {x}) == Without(KeepIn(order, keys), x)
  {
    if order != [] {
      var front, last := order[..|order| - 1], order[|order| - 1];
      KeepInMinus(front, keys, x);
      WithoutSnoc(KeepIn(front, keys), last, x);
    }
  }

  /** Popping the front slot of a cached key removes the head of the eviction order; any other pop leaves it alone. */
  lemma PopStrikesHead(entries: map<string, Entry>, order: seq<string>)
    requires order != []
    ensures var x, rest := order[0], order[1..];
            ByFirstSlot(entries, order) == if x in entries then [x] + ByFirstSlot(entries - {x}, rest)
                                           else ByFirstSlot(entries - {x}, rest)
  {
    var x, rest := order[0], order[1..];
    assert order == [x] + rest;
    KeepInCons(x, rest, entries.Keys);
    assert (entries - {x}).Keys == entries.Keys - {x};
    KeepInMinus(rest, entries.Keys, x);
    DedupWithout(KeepIn(rest, entries.Keys), x);
    DedupCons(x, KeepIn(rest, entries.Keys));
    if x !in entries {
      assert entries.Keys - {x} == entries.Keys;
    }
  }

  lemma SlotsListEntries(entries: map<string, Entry>, order: seq<string>)
    requires Covered(entries, order)
    ensures |ByFirstSlot(entries, order)| == |entries|
    ensures forall k :: k in ByFirstSlot(entries, order) <==> k in entries
  {
    var slots := KeepIn(order, entries.Keys);
    KeepInMembers(order, entries.Keys);
    DedupMembers(slots);
    DedupDistinct(slots);
    DistinctCardinality(Dedup(slots));
    assert Elems(Dedup(slots)) == entries.Keys;
  }

  lemma CoverNonempty(entries: map<string, Entry>, order: seq<string>)
    requires Covered(entries, order) && |entries| > 0
    ensures order != []
  {
    var k :| k in entries.Keys;
  }

  lemma PopOne(entries: map<string, Entry>, order: seq<string>, max: nat)
    ensures |entries| > max && order != [] ==>
              PopOldest(entries, order, max) == PopOldest(entries - {order[0]}, order[1..], max)
    ensures |entries| <= max ==> PopOldest(entries, order, max) == (entries, order)
  {
  }

  lemma CoverRest(entries: map<string, Entry>, order: seq<string>)
    requires Covered(entries, order) && order != []
    ensures Covered(entries - {order[0]}, order[1..])
  {
    assert order == [order[0]] + order[1..];
  }

  lemma LastOfTail(x: string, tail: seq<string>, max: nat)
    ensures |tail| >= max ==> Last([x] + tail, max) == Last(tail, max)
    ensures |tail| <= max ==> Last(tail, max) == tail
  {
  }

  lemma {:induction false} PopKeepsLast(entries: map<string, Entry>, order: seq<string>, max: nat)
    requires Covered(entries, order)
    ensures forall k :: k in PopOldest(entries, order, max).0 <==> k in Last(ByFirstSlot(entries, order), max)
    decreases |order|
  {
    hide Covered, PopOldest, ByFirstSlot, Last;
    SlotsListEntries(entries, order);
    PopOne(entries, order, max);
    if |entries| > max {
      CoverNonempty(entries, order);
      var x, rest := order[0], order[1..];
      var tail := ByFirstSlot(entries - {x}, rest);
      CoverRest(entries, order);
      PopStrikesHead(entries, order);
      PopKeepsLast(entries - {x}, rest, max);
      SlotsListEntries(entries - {x}, rest);
      DropOneSize(entries, x);
      LastOfTail(x, tail, max);
    } else {
      LastOfTail("", ByFirstSlot(entries, order), max);
    }
  }

  /**
   * Who the janitor keeps: the unexpired keys whose FIRST slot comes last, whatever duplicates the slice holds.
   */
  lemma SweepSurvivors(s: State, max: nat, now: int)
    requires Covered(s.entries, s.order)
    ensures forall k :: k in Swept(s, max, now).entries
                        <==> k in Last(ByFirstSlot(Live(s.entries, now), s.order), max)
  {
    PopKeepsLast(Live(s.entries, now), s.order, max);
  }

  lemma {:induction false} KeepInDistinct(order: seq<string>, keys: set<string>)
    requires Distinct(order)
    ensures Distinct(KeepIn(order, keys)) && Dedup(KeepIn(order, keys)) == KeepIn(order, keys)
  {
    if order != [] {
      var front, last := order[..|order| - 1], order[|order| - 1];
      KeepInDistinct(front, keys);
      KeepInMembers(front, keys);
      if last in keys {
        DedupSnoc(KeepIn(front, keys), last);
        assert last !in front;
      }
    }
  }

  // ---------------------------------------------------------------- when the survivors are the newest

  /** Keeps the last occurrence of every element. */
  function DedupLast(s: seq<string>): seq<string> {
    if s == [] then [] else Without(DedupLast(s[..|s| - 1]), s[|s| - 1]) + [s[|s| - 1]]
  }

  /** The cached keys in the order of their last slot, the one appended when the present entry was inserted. */
  function ByLastSlot(entries: map<string, Entry>, order: seq<string>): seq<string> {
    DedupLast(KeepIn(order, entries.Keys))
  }

  lemma DedupLastSnoc(s: seq<string>, x: string)
    ensures DedupLast(s + [x]) == Without(DedupLast(s), x) + [x]
  {
    assert (s + [x])[..|s|] == s;
  }

  lemma {:induction false} DedupLastWithout(s: seq<string>, x: string)
    ensures DedupLast(Without(s, x)) == Without(DedupLast(s), x)
  {
    hide DedupLast, Without;
    if s == [] {
      WithoutAbsent(s, x);
      DedupLastNil();
      WithoutAbsent(DedupLast(s), x);
    } else {
      var front, last := s[..|s| - 1], s[|s| - 1];
      var d := DedupLast(front);
      assert s == front + [last];
      DedupLastWithout(front, x);
      WithoutSnoc(front, last, x);
      DedupLastSnoc(front, last);
      WithoutSnoc(Without(d, last), last, x);
      if last == x {
        WithoutTwice(d, x);
      } else {
        DedupLastSnoc(Without(front, x), last);
        WithoutCommutes(d, last, x);
      }
    }
  }

  lemma DedupLastNil()
    ensures DedupLast([]) == []
  {
  }

  lemma WithoutTwice(s: seq<string>, x: string)
    ensures Without(Without(s, x), x) == Without(s, x)
  {
    WithoutMembers(s, x);
    WithoutAbsent(Without(s, x), x);
  }

  lemma {:induction false} WithoutCommutes(s: seq<string>, x: string, y: string)
    ensures Without(Without(s, x), y) == Without(Without(s, y), x)
  {
    if s != [] {
      var front, last := s[..|s| - 1], s[|s| - 1];
      WithoutCommutes(front, x, y);
      WithoutSnoc(Without(front, x), last, y);
      WithoutSnoc(Without(front, y), last, x);
    }
  }

  lemma DistinctSnoc(s: seq<string>, x: string)
    requires Distinct(s) && x !in s
    ensures Distinct(s + [x])
  {
  }

  lemma {:induction false} DedupLastMembers(s: seq<string>)
    ensures forall k :: k in DedupLast(s) <==> k in s
    ensures Distinct(DedupLast(s))
  {
    if s != [] {
      var front, last := s[..|s| - 1], s[|s| - 1];
      DedupLastMembers(front);
      WithoutMembers(DedupLast(front), last);
      WithoutDistinct(DedupLast(front), last);
      DistinctSnoc(Without(DedupLast(front), last), last);
      assert s == front + [last];
    }
  }

  /**
   * Insertion order: setting an absent key puts it last, overwriting one leaves the order alone, and a deleted or
   * expired key just leaves it.
   */
  lemma LastSlotIsInsertion(s: State, key: string, e: Entry)
    requires Covered(s.entries, s.order)
    ensures var t := Put(s, key, e);
            ByLastSlot(t.entries, t.order)
            == if key in s.entries then ByLastSlot(s.entries, s.order) else ByLastSlot(s.entries, s.order) + [key]
    ensures var t := Drop(s, key); ByLastSlot(t.entries, t.order) == Without(ByLastSlot(s.entries, s.order), key)
  {
    var slots := KeepIn(s.order, s.entries.Keys);
    assert (s.entries - {key}).Keys == s.entries.Keys - {key};
    KeepInMinus(s.order, s.entries.Keys, key);
    DedupLastWithout(slots, key);
    var t := Put(s, key, e);
    if key in s.entries {
      assert t.entries.Keys == s.entries.Keys;
    } else {
      assert t.entries.Keys == s.entries.Keys + {key} && t.entries.Keys - {key} == s.entries.Keys;
      KeepInSnoc(s.order, key, t.entries.Keys);
      DedupLastSnoc(KeepIn(s.order, t.entries.Keys), key);
      KeepInMinus(s.order, t.entries.Keys, key);
      DedupLastWithout(KeepIn(s.order, t.entries.Keys), key);
    }
  }

  lemma {:induction false} PopKeepsSlots(entries: map<string, Entry>, order: seq<string>, max: nat)
    ensures var (es, os) := PopOldest(entries, order, max);
            es.Keys <= entries.Keys && KeepIn(order, es.Keys) == KeepIn(os, es.Keys)
    decreases |order|
  {
    if |entries| > max && order != [] {
      var x, rest := order[0], order[1..];
      PopKeepsSlots(entries - {x}, rest, max);
      PopOne(entries, order, max);
      hide PopOldest, KeepIn;
      assert order == [x] + rest;
      KeepInCons(x, rest, PopOldest(entries, order, max).0.Keys);
    }
  }

  lemma {:induction false} KeepInTwice(s: seq<string>, wide: set<string>, keys: set<string>)
    requires keys <= wide
    ensures KeepIn(KeepIn(s, wide), keys) == KeepIn(s, keys)
  {
    if s != [] {
      var front, last := s[..|s| - 1], s[|s| - 1];
      KeepInTwice(front, wide, keys);
      KeepInSnoc(KeepIn(front, wide), last, keys);
    }
  }

  lemma {:induction false} KeepInWithout(s: seq<string>, x: string, keys: set<string>)
    ensures KeepIn(Without(s, x), keys) == Without(KeepIn(s, keys), x)
  {
    if s != [] {
      var front, last := s[..|s| - 1], s[|s| - 1];
      KeepInWithout(front, x, keys);
      KeepInSnoc(Without(front, x), last, keys);
      WithoutSnoc(KeepIn(front, keys), last, x);
    }
  }

  lemma {:induction false} DedupLastKeepIn(s: seq<string>, keys: set<string>)
    ensures DedupLast(KeepIn(s, keys)) == KeepIn(DedupLast(s), keys)
  {
    if s != [] {
      var front, last := s[..|s| - 1], s[|s| - 1];
      assert s == front + [last];
      DedupLastKeepIn(front, keys);
      DedupLastSnoc(front, last);
      KeepInSnoc(front, last, keys);
      KeepInSnoc(Without(DedupLast(front), last), last, keys);
      KeepInWithout(DedupLast(front), last, keys);
      DedupLastSnoc(KeepIn(front, keys), last);
      hide DedupLast;
      if last !in keys {
        KeepInMembers(DedupLast(front), keys);
        WithoutAbsent(KeepIn(DedupLast(front), keys), last);
      }
    }
  }

  /** The janitor leaves the survivors in insertion order: dropping and rewriting slots only removes the keys that go. */
  lemma SweepKeepsInsertion(s: State, max: nat, now: int)
    ensures var t := Swept(s, max, now);
            && ByLastSlot(t.entries, t.order) == ByLastSlot(t.entries, s.order)
            && ByLastSlot(t.entries, t.order) == KeepIn(ByLastSlot(s.entries, s.order), t.entries.Keys)
  {
    var live, t := Live(s.entries, now), Swept(s, max, now);
    var keys, os := t.entries.Keys, PopOldest(live, s.order, max).1;
    PopKeepsSlots(live, s.order, max);
    assert keys <= live.Keys <= s.entries.Keys;
    assert t.order == KeepIn(os, keys);
    hide Swept, Live, PopOldest, KeepIn, DedupLast;
    KeepInTwice(os, keys, keys);
    KeepInTwice(s.order, s.entries.Keys, keys);
    DedupLastKeepIn(KeepIn(s.order, s.entries.Keys), keys);
  }

  lemma LastAt(s: seq<string>, m: nat)
    requires m < |s|
    ensures Elems(Last(s, m + 1)) == Elems(Last(s, m)) + {s[|s| - m - 1]}
    ensures Distinct(s) ==> s[|s| - m - 1] !in Elems(Last(s, m))
  {
    assert Last(s, m + 1) == [s[|s| - m - 1]] + Last(s, m);
  }

  /** Duplicate-free lists of one length are equal when all their suffixes have the same elements. */
  lemma SuffixesDetermine(a: seq<string>, b: seq<string>)
    requires Distinct(a) && Distinct(b) && |a| == |b|
    requires forall m: nat :: Elems(Last(a, m)) == Elems(Last(b, m))
    ensures a == b
  {
    hide Distinct, Elems, Last;
    forall i | 0 <= i < |a| ensures a[i] == b[i] {
      var m := |a| - i - 1;
      LastAt(a, m);
      LastAt(b, m);
      assert Elems(Last(a, m)) == Elems(Last(b, m)) && Elems(Last(a, m + 1)) == Elems(Last(b, m + 1));
      assert a[i] in Elems(Last(b, m + 1));
    }
  }

  /** After a sweep of a cache for `max` entries, those left are the `max` inserted last. */
  ghost predicate KeepsNewest(s: State, max: nat, now: int) {
    Swept(s, max, now).entries.Keys == Elems(Last(ByLastSlot(Live(s.entries, now), s.order), max))
  }

  lemma SurvivorKeys(s: State, max: nat, now: int)
    requires Covered(s.entries, s.order)
    ensures Swept(s, max, now).entries.Keys == Elems(Last(ByFirstSlot(Live(s.entries, now), s.order), max))
  {
    SweepSurvivors(s, max, now);
    hide Swept, Live, ByFirstSlot, Last;
  }

  lemma BothOrders(s: State, now: int)
    requires Covered(s.entries, s.order)
    ensures var a, b := ByFirstSlot(Live(s.entries, now), s.order), ByLastSlot(Live(s.entries, now), s.order);
            Distinct(a) && Distinct(b) && |a| == |b|
  {
    var slots := KeepIn(s.order, Live(s.entries, now).Keys);
    DedupDistinct(slots);
    DedupMembers(slots);
    DedupLastMembers(slots);
    DistinctCardinality(Dedup(slots));
    DistinctCardinality(DedupLast(slots));
    assert Elems(Dedup(slots)) == Elems(DedupLast(slots));
  }

  /**
   * "The oldest entries are evicted" holds, whatever the capacity, if and only if the unexpired keys have their first
   * and their last slots in the same order. Stale slots do no harm, nor does a doubled slot of the oldest key.
   */
  lemma SweepKeepsNewestIff(s: State, now: int)
    requires Covered(s.entries, s.order)
    ensures (forall max: nat :: KeepsNewest(s, max, now))
            <==> ByFirstSlot(Live(s.entries, now), s.order) == ByLastSlot(Live(s.entries, now), s.order)
  {
    var a, b := ByFirstSlot(Live(s.entries, now), s.order), ByLastSlot(Live(s.entries, now), s.order);
    BothOrders(s, now);
    hide Swept, Live, ByFirstSlot, ByLastSlot, Last, Elems, Distinct, Covered;
    forall max: nat ensures KeepsNewest(s, max, now) <==> Elems(Last(a, max)) == Elems(Last(b, max)) {
      SurvivorKeys(s, max, now);
    }
    if forall max: nat :: KeepsNewest(s, max, now) {
      forall m: nat ensures Elems(Last(a, m)) == Elems(Last(b, m)) {
        assert KeepsNewest(s, m, now);
      }
      SuffixesDetermine(a, b);
    }
  }

  /** Without any doubled slot these are the last min(max, live) unexpired keys of the slice. */
  lemma SweepKeepsNewest(s: State, max: nat, now: int)
    requires Covered(s.entries, s.order) && Distinct(s.order)
    ensures forall k :: k in Swept(s, max, now).entries
                        <==> k in Last(KeepIn(s.order, Live(s.entries, now).Keys), max)
    ensures KeepsNewest(s, max, now)
  {
    var keys := Live(s.entries, now).Keys;
    SweepSurvivors(s, max, now);
    KeepInDistinct(s.order, keys);
    DedupLastDistinct(KeepIn(s.order, keys));
    SweepKeepsNewestIff(s, now);
  }

  lemma {:induction false} DedupLastDistinct(s: seq<string>)
    requires Distinct(s)
    ensures DedupLast(s) == s
  {
    if s != [] {
      var front, last := s[..|s| - 1], s[|s| - 1];
      DedupLastDistinct(front);
      assert s == front + [last];
      assert last !in front;
      WithoutAbsent(front, last);
    }
  }

  /**
   * With a doubled slot "oldest" is wrong: `a` is set, expires and is dropped by a read, `b` is set, then `a` is set
   * again. The next sweep of a cache for one entry evicts `a`, the newer of the two.
   */
  lemma DoubledSlotEvictsNewer(a: string, b: string, v: Bytes)
    requires a != b
    ensures var s0 := State(map[], [], {});
            var s1 := AfterGet(Put(s0, a, NewEntry(v, 1, 0, 0)), a, 2, 2).0;
            var s2 := Put(Put(s1, b, NewEntry(v, 60, 0, 3)), a, NewEntry(v, 60, 0, 4));
            Swept(s2, 1, 5).entries.Keys == {b}
  {
    var s1 := AfterGet(Put(State(map[], [], {}), a, NewEntry(v, 1, 0, 0)), a, 2, 2).0;
    assert s1.entries == map[] && s1.order == [a];
    var eb, ea := NewEntry(v, 60, 0, 3), NewEntry(v, 60, 0, 4);
    var s2 := Put(Put(s1, b, eb), a, ea);
    assert s2.order == [a, b, a] && s2.entries == map[b := eb, a := ea];
    assert Live(s2.entries, 5) == s2.entries;
    assert s2.entries.Keys == {a, b};
    assert |s2.entries| == 2;
    assert s2.entries - {a} == map[b := eb];
    assert s2.order[1..] == [b, a];
    assert PopOldest(s2.entries, s2.order, 1) == (map[b := eb], [b, a]);
  }

  // ---------------------------------------------------------------- the cache object

  class L1Cache {
    var entries: map<string, Entry>
    var order: seq<string>
    var revalidating: set<string>
    const maxEntries: nat

    ghost function Snapshot(): State
      reads this
    {
      State(entries, order, revalidating)
    }

    ghost predicate Valid()
      reads this
    {
      Covered(entries, order)
    }

    constructor (maxEntries: nat)
      ensures Valid() && Snapshot() == State(map[], [], {}) && this.maxEntries == maxEntries
    {
      entries, order, revalidating := map[], [], {};
      this.maxEntries := maxEntries;
    }

    method Set(key: string, value: Bytes, ttl: int, staleTtl: int, now: int)
      requires Valid()
      modifies this
      ensures Valid()
      ensures Snapshot() == ClearFlag(Put(old(Snapshot()), key, NewEntry(value, ttl, staleTtl, now)), key)
    {
      var expiresAt := now + ttl;
      var staleAt := expiresAt;
      if staleTtl > 0 && staleTtl < ttl {
        staleAt := now + staleTtl;
      }
      if key !in entries {
        order := order + [key];
      }
      entries := entries[key := Entry(value, expiresAt, staleAt)];
      revalidating := revalidating - {key};
    }

    method Get(key: string, now1: int, now2: int) returns (r: GetResult)
      requires Valid()
      modifies this
      ensures Valid()
      ensures (Snapshot(), r) == AfterGet(old(Snapshot()), key, now1, now2)
    {
      if key !in entries {
        return Miss;
      }
      var e := entries[key];
      if e.IsExpired(now1) {
        entries := entries - {key};
        return Miss;
      }
      if e.IsStale(now2) {
        var alreadyRefreshing := key in revalidating;
        revalidating := revalidating + {key};
        return Hit(e.value, !alreadyRefreshing);
      }
      return Hit(e.value, false);
    }

    method Delete(key: string)
      requires Valid()
      modifies this
      ensures Valid()
      ensures Snapshot() == ClearFlag(Drop(old(Snapshot()), key), key)
    {
      entries := entries - {key};
      revalidating := revalidating - {key};
    }

    method EvictExpired(now: int)
      requires Valid()
      modifies this
      ensures Valid() && |entries| <= maxEntries
      ensures Snapshot() == Swept(old(Snapshot()), maxEntries, now)
    {
      SweepRestoresBound(Snapshot(), maxEntries, now);
      DeleteExpired(now);
      PopOverflow();
      RebuildOrder();
    }

    /** First loop: remove hard-expired entries, in any order. */
    method DeleteExpired(now: int)
      modifies `entries
      ensures entries == Live(old(entries), now)
    {
      var keys := entries.Keys;
      while keys != {}
        invariant keys <= entries.Keys <= old(entries).Keys
        invariant forall k :: k in old(entries) && k !in keys ==> (k in entries <==> !old(entries)[k].IsExpired(now))
        invariant forall k :: k in entries ==> entries[k] == old(entries)[k]
        decreases keys
      {
        var k :| k in keys;
        if entries[k].IsExpired(now) {
          entries := entries - {k};
        }
        keys := keys - {k};
      }
    }

    /** Second loop: still over capacity, evict from the front of the slice. */
    method PopOverflow()
      modifies `entries, `order
      ensures (entries, order) == PopOldest(old(entries), old(order), maxEntries)
    {
      while |entries| > maxEntries && |order| > 0
        invariant PopOldest(entries, order, maxEntries) == PopOldest(old(entries), old(order), maxEntries)
        decreases |order|
      {
        var oldest := order[0];
        order := order[1..];
        entries := entries - {oldest};
      }
    }

    /** Third loop: drop the slots of keys that are gone. */
    method RebuildOrder()
      modifies `order
      ensures order == KeepIn(old(order), entries.Keys)
    {
      var filtered: seq<string> := [];
      for i := 0 to |order|
        invariant order == old(order) && filtered == KeepIn(order[..i], entries.Keys)
      {
        assert order[..i + 1] == order[..i] + [order[i]];
        KeepInSnoc(order[..i], order[i], entries.Keys);
        if order[i] in entries {
          filtered := filtered + [order[i]];
        }
      }
      assert order[..|order|] == order;
      order := filtered;
    }
  }
}
