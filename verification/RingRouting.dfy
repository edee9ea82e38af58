/** Lookups on the consistent hash ring and what membership changes do to them (internal/consistent/hash.go). */
module RingRouting {
  import opened Common
  import opened ConsistentHash

  // ---------------------------------------------------------------- the unbounded walk of GetN

  /** `idx` is where a binary search for `h` stops. */
  ghost predicate IsSearchResult(sorted: seq<Point>, h: Point, idx: nat) {
    && idx <= |sorted|
    && (forall k :: 0 <= k < idx ==> sorted[k] < h)
    && (forall k :: idx <= k < |sorted| ==> h <= sorted[k])
  }

  /** The owners met in the first `steps` rounds of a loop that never stops, wrapping around the array. */
  function Walk(s: State, idx: nat, steps: nat): (r: seq<string>)
    requires |s.sorted| > 0
    ensures |r| == steps
  {
    if steps == 0 then []
    else Walk(s, idx, steps - 1) + [OwnerOf(s.ring, s.sorted[(idx + steps - 1) % |s.sorted|])]
  }

  lemma ClockwiseIsRotation(sorted: seq<Point>, h: Point, idx: nat)
    requires IsSearchResult(sorted, h, idx)
    ensures Clockwise(sorted, h) == sorted[idx..] + sorted[..idx]
  {
    BetweenIsSlice(sorted, idx, |sorted|, h as int, 0x1_0000_0000);
    BetweenIsSlice(sorted, 0, idx, 0, h as int);
  }

  lemma WrapAround(a: nat, m: nat)
    requires 0 < m && a < 2 * m
    ensures a % m == if a < m then a else a - m
  {
  }

  lemma RotationAt(sorted: seq<Point>, h: Point, idx: nat, k: nat)
    requires IsSearchResult(sorted, h, idx) && k < |sorted|
    ensures |Clockwise(sorted, h)| == |sorted|
    ensures Clockwise(sorted, h)[k] == sorted[(idx + k) % |sorted|]
  {
    ClockwiseIsRotation(sorted, h, idx);
    WrapAround(idx + k, |sorted|);
  }

  /** During the first lap the walk is a prefix of the clockwise owners. */
  lemma {:induction false} WalkIsPrefix(s: State, h: Point, idx: nat, steps: nat)
    requires |s.sorted| > 0 && IsSearchResult(s.sorted, h, idx) && steps <= |s.sorted|
    ensures |Clockwise(s.sorted, h)| == |s.sorted|
    ensures Walk(s, idx, steps) == Owners(s.ring, Clockwise(s.sorted, h))[..steps]
  {
    RotationAt(s.sorted, h, idx, 0);
    if steps > 0 {
      var lap := Owners(s.ring, Clockwise(s.sorted, h));
      WalkIsPrefix(s, h, idx, steps - 1);
      RotationAt(s.sorted, h, idx, steps - 1);
      assert lap[..steps] == lap[..steps - 1] + [lap[steps - 1]];
    }
  }

  lemma PreferenceMembers(s: State, h: Point)
    ensures forall x :: x in Preference(s, h) <==> x in Owners(s.ring, Clockwise(s.sorted, h))
  {
    DedupMembers(Owners(s.ring, Clockwise(s.sorted, h)));
  }

  lemma PreferenceDistinct(s: State, h: Point)
    ensures Distinct(Preference(s, h))
  {
    DedupDistinct(Owners(s.ring, Clockwise(s.sorted, h)));
  }

  lemma {:induction false} WalkStaysOnRing(s: State, h: Point, idx: nat, steps: nat)
    requires |s.sorted| > 0 && IsSearchResult(s.sorted, h, idx)
    ensures forall x :: x in Walk(s, idx, steps) ==> x in Preference(s, h)
  {
    if steps > 0 {
      WalkStaysOnRing(s, h, idx, steps - 1);
      PreferenceMembers(s, h);
      ClockwiseMembers(s.sorted, h);
      var p := s.sorted[(idx + steps - 1) % |s.sorted|];
      assert p in Clockwise(s.sorted, h);
      var i :| 0 <= i < |Clockwise(s.sorted, h)| && Clockwise(s.sorted, h)[i] == p;
      assert Owners(s.ring, Clockwise(s.sorted, h))[i] == OwnerOf(s.ring, p);
    }
  }

  /**
   * The loop of GetN ends: nothing is wanted, or enough distinct owners are met after some number of rounds. On an
   * empty list the first round already divides by zero.
   */
  ghost predicate Collects(s: State, idx: nat, want: nat) {
    want == 0 || (s.sorted != [] && exists steps: nat :: |Dedup(Walk(s, idx, steps))| >= want)
  }

  lemma WalkIsBounded(s: State, h: Point, idx: nat, steps: nat)
    requires s.sorted != [] && IsSearchResult(s.sorted, h, idx)
    ensures |Dedup(Walk(s, idx, steps))| <= |Preference(s, h)|
  {
    var all, d := Preference(s, h), Dedup(Walk(s, idx, steps));
    PreferenceDistinct(s, h);
    DistinctCardinality(all);
    WalkStaysOnRing(s, h, idx, steps);
    DedupMembers(Walk(s, idx, steps));
    DedupDistinct(Walk(s, idx, steps));
    DistinctCardinality(d);
    SubsetSize(Elems(d), Elems(all));
  }

  lemma OneLapSuffices(s: State, h: Point, idx: nat)
    requires s.sorted != [] && IsSearchResult(s.sorted, h, idx)
    ensures Dedup(Walk(s, idx, |s.sorted|)) == Preference(s, h)
  {
    WalkIsPrefix(s, h, idx, |s.sorted|);
    assert Walk(s, idx, |s.sorted|) == Owners(s.ring, Clockwise(s.sorted, h));
  }

  /** It ends if and only if no more nodes are wanted than the lap has distinct owners. */
  lemma CollectsIff(s: State, h: Point, idx: nat, want: nat)
    requires IsSearchResult(s.sorted, h, idx)
    ensures Collects(s, idx, want) <==> want <= |Preference(s, h)|
  {
    hide Dedup, Walk, Preference, IsSearchResult;
    if s.sorted == [] {
      PrimaryHeadsPreference(s, h);
    } else {
      OneLapSuffices(s, h, idx);
      forall steps: nat ensures |Dedup(Walk(s, idx, steps))| <= |Preference(s, h)| {
        WalkIsBounded(s, h, idx, steps);
      }
    }
  }

  /** Whatever the key, the lap has as many distinct owners as own a point at all. */
  lemma LapMeetsEveryOwner(hash: string -> Point, s: State, h: Point)
    requires WellFormed(hash, s)
    ensures |Preference(s, h)| == |s.ring.Values|
  {
    var lap, all := Clockwise(s.sorted, h), Preference(s, h);
    PreferenceMembers(s, h);
    PreferenceDistinct(s, h);
    ClockwiseMembers(s.sorted, h);
    DistinctCardinality(all);
    forall x ensures x in Elems(all) <==> x in s.ring.Values {
      if x in all {
        var i :| 0 <= i < |lap| && Owners(s.ring, lap)[i] == x;
        assert lap[i] in s.ring;
      }
      if x in s.ring.Values {
        var p :| p in s.ring && s.ring[p] == x;
        assert p in lap;
        var i :| 0 <= i < |lap| && lap[i] == p;
        assert Owners(s.ring, lap)[i] == x;
      }
    }
    assert Elems(all) == s.ring.Values;
  }

  /** GetN(key, n) returns if and only if min(n, nodes) nodes own a point, whichever key is asked for. */
  lemma GetNReturnsIff(hash: string -> Point, s: State, h: Point, idx: nat, n: nat)
    requires WellFormed(hash, s) && IsSearchResult(s.sorted, h, idx)
    ensures Collects(s, idx, Min(n, |s.nodes|)) <==> Min(n, |s.nodes|) <= |s.ring.Values|
  {
    CollectsIff(s, h, idx, Min(n, |s.nodes|));
    LapMeetsEveryOwner(hash, s, h);
  }

  /** Every call of GetN on this ring returns. */
  ghost predicate AlwaysReturns(s: State) {
    forall h: Point, idx: nat, n: nat :: IsSearchResult(s.sorted, h, idx) ==> Collects(s, idx, Min(n, |s.nodes|))
  }

  lemma {:induction false} SearchStops(sorted: seq<Point>, h: Point) returns (idx: nat)
    requires Ascending(sorted)
    ensures IsSearchResult(sorted, h, idx)
  {
    if sorted == [] || sorted[|sorted| - 1] < h {
      idx := |sorted|;
    } else {
      var front := sorted[..|sorted| - 1];
      idx := SearchStops(front, h);
      assert forall k :: idx <= k < |front| ==> h <= front[k] == sorted[k];
    }
  }

  lemma AlwaysReturnsIffAllOwn(hash: string -> Point, s: State)
    requires WellFormed(hash, s)
    ensures AlwaysReturns(s) <==> |s.nodes| <= |s.ring.Values|
  {
    var idx := SearchStops(s.sorted, 0);
    GetNReturnsIff(hash, s, 0, idx, |s.nodes|);
    forall h: Point, idx: nat, n: nat | IsSearchResult(s.sorted, h, idx)
      ensures Collects(s, idx, Min(n, |s.nodes|)) <==> Min(n, |s.nodes|) <= |s.ring.Values|
    {
      GetNReturnsIff(hash, s, h, idx, n);
    }
    hide Collects, IsSearchResult, WellFormed;
    if AlwaysReturns(s) {
      assert Collects(s, idx, Min(|s.nodes|, |s.nodes|));
    }
  }

  lemma OwnersHaveWeight(hash: string -> Point, s: State)
    requires Exact(hash, s)
    ensures s.ring.Values == set x | x in s.nodes && s.nodes[x] >= 1
  {
    forall x ensures x in s.ring.Values <==> x in s.nodes && s.nodes[x] >= 1 {
      if x in s.ring.Values {
        var p :| p in s.ring && s.ring[p] == x;
        assert p in Points(hash, x, s.nodes[x]);
      }
      if x in s.nodes && s.nodes[x] >= 1 {
        var p := Points(hash, x, s.nodes[x])[0];
        assert p in Points(hash, x, s.nodes[x]);
        assert s.ring[p] == x;
      }
    }
  }

  /** Without collisions, every GetN returns if and only if every registered weight is at least 1. */
  lemma AlwaysReturnsIffWeighted(hash: string -> Point, s: State)
    requires Exact(hash, s)
    ensures AlwaysReturns(s) <==> forall x :: x in s.nodes ==> s.nodes[x] >= 1
  {
    AlwaysReturnsIffAllOwn(hash, s);
    OwnersHaveWeight(hash, s);
    hide AlwaysReturns;
    var owners := set x | x in s.nodes && s.nodes[x] >= 1;
    assert owners <= s.nodes.Keys;
    if |s.nodes| <= |owners| {
      SubsetOfSameSize(owners, s.nodes.Keys);
    } else if forall x :: x in s.nodes ==> s.nodes[x] >= 1 {
      assert owners == s.nodes.Keys;
    }
  }

  lemma SubsetOfSameSize(a: set<string>, b: set<string>)
    requires a <= b && |b| <= |a|
    ensures a == b
  {
    assert b == a + (b - a);
    assert |b| == |a| + |b - a|;
  }

  /** AddWeighted(x, 0) on an empty ring: the next GetN for one node divides by zero. */
  lemma WeightZeroNeverReturns(hash: string -> Point, x: string)
    ensures var s := AfterAdd(hash, EMPTY, x, 0); s.sorted == [] && |s.nodes| == 1 && !Collects(s, 0, Min(1, |s.nodes|))
  {
    assert Points(hash, x, 0) == [];
    assert Sort([] + []) == [];
  }

  // ---------------------------------------------------------------- replica lists

  /** What GetN returns: the first min(n, nodes) entries of the preference list. */
  function Replicas(s: State, h: Point, n: nat): seq<string> {
    Take(Preference(s, h), Min(n, |s.nodes|))
  }

  /** What Get returns: the head of the preference list, or "" on an empty ring. */
  function Primary(s: State, h: Point): string {
    if s.sorted == [] then "" else OwnerOf(s.ring, Clockwise(s.sorted, h)[0])
  }

  lemma PrimaryHeadsPreference(s: State, h: Point)
    ensures s.sorted == [] <==> Preference(s, h) == []
    ensures s.sorted != [] ==> Primary(s, h) == Preference(s, h)[0]
  {
    var lap := Clockwise(s.sorted, h);
    ClockwiseMembers(s.sorted, h);
    if s.sorted != [] {
      assert s.sorted[0] in lap;
      DedupKeepsHead(Owners(s.ring, lap));
    } else {
      assert Clockwise([], h) == [];
    }
  }

  /** How far clockwise the point lies from `h`. */
  function Distance(h: Point, p: Point): nat {
    (p as int - h as int) % 0x1_0000_0000
  }

  lemma {:induction false} BetweenAscends(s: seq<Point>, lo: int, hi: int)
    requires StrictlyAscending(s)
    ensures StrictlyAscending(Between(s, lo, hi))
  {
    if s != [] {
      var front, last := s[..|s| - 1], s[|s| - 1];
      BetweenAscends(front, lo, hi);
      BetweenMembers(front, lo, hi);
      if lo <= last as int < hi {
        assert forall q :: q in front ==> q < last;
        AscendingSnoc(Between(front, lo, hi), last);
      }
    }
  }

  lemma DistanceIs(h: Point, p: Point)
    ensures Distance(h, p) == if p >= h then p as int - h as int else p as int - h as int + 0x1_0000_0000
  {
  }

  /** The lap meets the points in the order of their clockwise distance. */
  lemma LapByDistance(sorted: seq<Point>, h: Point, a: nat, b: nat)
    requires StrictlyAscending(sorted) && a < b < |Clockwise(sorted, h)|
    ensures Distance(h, Clockwise(sorted, h)[a]) < Distance(h, Clockwise(sorted, h)[b])
  {
    var high, low := Between(sorted, h as int, 0x1_0000_0000), Between(sorted, 0, h as int);
    BetweenAscends(sorted, h as int, 0x1_0000_0000);
    BetweenAscends(sorted, 0, h as int);
    BetweenMembers(sorted, h as int, 0x1_0000_0000);
    BetweenMembers(sorted, 0, h as int);
    hide Between, Distance;
    var lap := high + low;
    assert a < |high| ==> lap[a] == high[a] && high[a] in high;
    assert a >= |high| ==> lap[a] == low[a - |high|] && low[a - |high|] in low;
    assert b < |high| ==> lap[b] == high[b] && high[b] in high;
    assert b >= |high| ==> lap[b] == low[b - |high|] && low[b - |high|] in low;
    DistanceIs(h, lap[a]);
    DistanceIs(h, lap[b]);
  }

  /** Where the list of first occurrences first meets its elements. */
  lemma {:induction false} DedupFirsts(s: seq<string>, k: nat) returns (at: nat)
    requires k < |Dedup(s)|
    ensures at < |s| && s[at] == Dedup(s)[k] && |Dedup(s[..at])| == k
    ensures forall m :: 0 <= m < |s| && s[m] !in Dedup(s)[..k] ==> at <= m
  {
    var front, last := s[..|s| - 1], s[|s| - 1];
    assert s == front + [last];
    DedupSnoc(front, last);
    if k < |Dedup(front)| {
      at := DedupFirsts(front, k);
      assert front[..at] == s[..at] && Dedup(s)[..k] == Dedup(front)[..k];
      assert forall m :: 0 <= m < |front| ==> front[m] == s[m];
    } else {
      at := |front|;
      assert s[..at] == front && Dedup(s)[..k] == Dedup(front);
      DedupMembers(front);
      forall m | 0 <= m < |front| ensures s[m] in Dedup(s)[..k] {
        assert s[m] == front[m] && front[m] in front;
      }
    }
  }

  /** A point of `x` on this ring that is nearer, clockwise from `h`, than every point of `y`. */
  ghost predicate Nearer(s: State, h: Point, x: string, y: string) {
    exists p :: p in s.ring && s.ring[p] == x && forall q :: q in s.ring && s.ring[q] == y ==> Distance(h, p) < Distance(h, q)
  }

  /** Replicas come in the order of clockwise distance: each is nearer to the key than all that follow it. */
  lemma PreferenceByDistance(hash: string -> Point, s: State, h: Point, i: nat, j: nat)
    requires Exact(hash, s) && i < j < |Preference(s, h)|
    ensures Nearer(s, h, Preference(s, h)[i], Preference(s, h)[j])
  {
    var lap := Clockwise(s.sorted, h);
    var owners, all := Owners(s.ring, lap), Preference(s, h);
    ClockwiseMembers(s.sorted, h);
    PreferenceDistinct(s, h);
    var a := DedupFirsts(owners, i);
    var x, y := all[i], all[j];
    assert lap[a] in s.ring && s.ring[lap[a]] == x;
    forall q | q in s.ring && s.ring[q] == y ensures Distance(h, lap[a]) < Distance(h, q) {
      assert q in lap;
      var b :| 0 <= b < |lap| && lap[b] == q;
      assert owners[b] == y && y !in all[..i];
      assert a <= b && owners[a] == x != y;
      LapByDistance(s.sorted, h, a, b);
    }
  }

  /** Get names the owner of the point nearest to the key, clockwise: the successor, or the first point when none follows. */
  lemma PrimaryOwnsNearest(hash: string -> Point, s: State, h: Point)
    requires Exact(hash, s) && s.sorted != []
    ensures exists p :: p in s.ring && s.ring[p] == Primary(s, h) && forall q :: q in s.ring ==> Distance(h, p) <= Distance(h, q)
  {
    var lap := Clockwise(s.sorted, h);
    ClockwiseMembers(s.sorted, h);
    assert s.sorted[0] in lap;
    var p := lap[0];
    assert p in s.ring;
    forall q | q in s.ring ensures Distance(h, p) <= Distance(h, q) {
      assert q in lap;
      var b :| 0 <= b < |lap| && lap[b] == q;
      if b > 0 { LapByDistance(s.sorted, h, 0, b); }
    }
  }

  lemma PreferredIffPositive(hash: string -> Point, s: State, h: Point, x: string)
    requires Exact(hash, s)
    ensures x in Preference(s, h) <==> x in s.nodes && s.nodes[x] >= 1
  {
    var lap := Clockwise(s.sorted, h);
    var owners := Owners(s.ring, lap);
    PreferenceMembers(s, h);
    ClockwiseMembers(s.sorted, h);
    if x in owners {
      var i :| 0 <= i < |lap| && owners[i] == x;
      assert lap[i] in s.ring;
      assert lap[i] in Points(hash, x, s.nodes[x]);
    }
    if x in s.nodes && s.nodes[x] >= 1 {
      var p := Points(hash, x, s.nodes[x])[0];
      assert p in Points(hash, x, s.nodes[x]);
      assert p in lap;
      var i :| 0 <= i < |lap| && lap[i] == p;
      assert owners[i] == x;
    }
  }

  /** On an exact ring the preference list names every node of positive weight exactly once, and no other. */
  lemma PreferenceIsComplete(hash: string -> Point, s: State, h: Point)
    requires Exact(hash, s)
    ensures Distinct(Preference(s, h))
    ensures forall x :: x in Preference(s, h) <==> x in s.nodes && s.nodes[x] >= 1
  {
    DedupDistinct(Owners(s.ring, Clockwise(s.sorted, h)));
    forall x ensures x in Preference(s, h) <==> x in s.nodes && s.nodes[x] >= 1 {
      PreferredIffPositive(hash, s, h, x);
    }
  }

  /** With positive weights GetN gives exactly min(n, nodes) distinct nodes, and a longer request only appends. */
  lemma ReplicaShape(hash: string -> Point, s: State, h: Point, n: nat, m: nat)
    requires Exact(hash, s) && n <= m
    requires forall x :: x in s.nodes ==> s.nodes[x] >= 1
    ensures |Replicas(s, h, n)| == Min(n, |s.nodes|) && Distinct(Replicas(s, h, n))
    ensures Replicas(s, h, n) <= Replicas(s, h, m)
    ensures n >= 1 && s.nodes != map[] ==> Replicas(s, h, n)[0] == Primary(s, h)
  {
    assert |Preference(s, h)| == |s.nodes| by {
      PreferenceIsComplete(hash, s, h);
      CountPreferred(s, h);
    }
    DedupDistinct(Owners(s.ring, Clockwise(s.sorted, h)));
    if n >= 1 && s.nodes != map[] {
      assert |s.nodes| >= 1;
      PrimaryHeadsPreference(s, h);
    }
  }

  lemma CountPreferred(s: State, h: Point)
    requires forall x :: x in Preference(s, h) <==> x in s.nodes
    ensures |Preference(s, h)| == |s.nodes|
  {
    DedupDistinct(Owners(s.ring, Clockwise(s.sorted, h)));
    DistinctCardinality(Preference(s, h));
    assert Elems(Preference(s, h)) == s.nodes.Keys;
  }

  // ---------------------------------------------------------------- failover

  lemma {:induction false} OwnersWithout(ring: map<Point, string>, gone: set<Point>, pts: seq<Point>, x: string)
    requires forall p :: p in pts ==> p in ring && (p in gone <==> ring[p] == x)
    ensures Owners(ring - gone, FilterOut(pts, gone)) == Without(Owners(ring, pts), x)
  {
    if pts != [] {
      var front, last := pts[..|pts| - 1], pts[|pts| - 1];
      OwnersWithout(ring, gone, front, x);
      assert Owners(ring, pts) == Owners(ring, front) + [ring[last]];
      assert Owners(ring, pts)[..|pts| - 1] == Owners(ring, front);
      if last !in gone {
        assert Owners(ring - gone, FilterOut(pts, gone)) == Owners(ring - gone, FilterOut(front, gone)) + [ring[last]];
      }
    }
  }

  /** Removing a node strikes it from every preference list and changes nothing else in any of them. */
  lemma RemovalStrikesNode(hash: string -> Point, s: State, node: string, h: Point)
    requires Exact(hash, s) && node in s.nodes
    ensures Preference(AfterRemove(hash, s, node), h) == Without(Preference(s, h), node)
  {
    var gone := set p | p in Points(hash, node, s.nodes[node]);
    var lap := Clockwise(s.sorted, h);
    BetweenFilterOut(s.sorted, gone, h as int, 0x1_0000_0000);
    BetweenFilterOut(s.sorted, gone, 0, h as int);
    ClockwiseMembers(s.sorted, h);
    FilterOutAppend(Between(s.sorted, h as int, 0x1_0000_0000), Between(s.sorted, 0, h as int), gone);
    assert Clockwise(FilterOut(s.sorted, gone), h) == FilterOut(lap, gone);
    OwnersWithout(s.ring, gone, lap, node);
    DedupWithout(Owners(s.ring, lap), node);
  }

  /** Failover. After a node leaves, the replicas of any key are its old replicas, asked for one more, without that node. */
  lemma FailoverReplicas(hash: string -> Point, s: State, node: string, h: Point, n: nat)
    requires Exact(hash, s) && node in s.nodes
    ensures var t := AfterRemove(hash, s, node);
            var k: nat := Min(n, |t.nodes|);
            Replicas(t, h, n) == Take(Without(Take(Preference(s, h), k + 1), node), k)
  {
    hide Preference, Without, AfterRemove;
    var k: nat := Min(n, |AfterRemove(hash, s, node).nodes|);
    RemovalStrikesNode(hash, s, node, h);
    PreferenceDistinct(s, h);
    TakeWithout(Preference(s, h), node, k);
  }

  /** Keys of other nodes keep their primary; a key of the lost node moves to its old second replica. */
  lemma FailoverPrimary(hash: string -> Point, s: State, node: string, h: Point)
    requires Exact(hash, s) && node in s.nodes
    ensures var t, all := AfterRemove(hash, s, node), Preference(s, h);
            Primary(t, h) == if all == [] then ""
                             else if all[0] != node then Primary(s, h)
                             else if |all| >= 2 then all[1]
                             else ""
  {
    var t, all := AfterRemove(hash, s, node), Preference(s, h);
    RemovalStrikesNode(hash, s, node, h);
    DedupDistinct(Owners(s.ring, Clockwise(s.sorted, h)));
    PrimaryHeadsPreference(s, h);
    PrimaryHeadsPreference(t, h);
    if all != [] {
      HeadWithout(all, node);
    }
  }

  /** The other direction: a new node only takes keys over, every key it does not take keeps its primary. */
  lemma AdditionMovesKeysOnlyToNewNode(hash: string -> Point, s: State, node: string, vnodes: int, h: Point)
    requires Exact(hash, s) && node !in s.nodes && Fresh(hash, s, node, vnodes)
    ensures var t := AfterAdd(hash, s, node, vnodes);
            && Preference(s, h) == Without(Preference(t, h), node)
            && (Primary(t, h) == Primary(s, h) || Primary(t, h) == node)
  {
    var t := AfterAdd(hash, s, node, vnodes);
    AddKeepsExact(hash, s, node, vnodes);
    AddThenRemoveIsIdentityIff(hash, s, node, vnodes);
    assert AfterRemove(hash, t, node) == s;
    RemovalStrikesNode(hash, t, node, h);
    FailoverPrimary(hash, t, node, h);
    PrimaryHeadsPreference(t, h);
  }

  /** Collisions or not, lookups only ever name registered nodes. */
  lemma LookupsAreRegistered(hash: string -> Point, s: State, h: Point)
    requires WellFormed(hash, s)
    ensures forall x :: x in Preference(s, h) ==> x in s.nodes
    ensures s.sorted != [] ==> Primary(s, h) in s.nodes
  {
    var lap := Clockwise(s.sorted, h);
    PreferenceMembers(s, h);
    ClockwiseMembers(s.sorted, h);
    forall x | x in Preference(s, h) ensures x in s.nodes {
      var i :| 0 <= i < |lap| && Owners(s.ring, lap)[i] == x;
      assert lap[i] in s.ring;
    }
    PrimaryHeadsPreference(s, h);
  }

  lemma PreferenceOfLap(s: State, h: Point, idx: nat)
    requires IsSearchResult(s.sorted, h, idx)
    ensures var lap := Owners(s.ring, Clockwise(s.sorted, h));
            Preference(s, h) == Dedup(lap) && |lap| == |s.sorted| && Dedup(lap[..0]) == []
  {
    ClockwiseIsRotation(s.sorted, h, idx);
  }

  lemma LapAt(s: State, h: Point, idx: nat, k: nat)
    requires IsSearchResult(s.sorted, h, idx) && k < |s.sorted|
    ensures var lap := Owners(s.ring, Clockwise(s.sorted, h));
            |lap| == |s.sorted| && lap[k] == OwnerOf(s.ring, s.sorted[(idx + k) % |s.sorted|])
  {
    RotationAt(s.sorted, h, idx, k);
  }

  // ---------------------------------------------------------------- the ring object

  class Ring {
    const hash: string -> Point
    var ring: map<Point, string>
    var sorted: seq<Point>
    var nodes: map<string, int>
    var replicas: int

    ghost function Snapshot(): State
      reads this
    {
      State(ring, sorted, nodes)
    }

    constructor (hash: string -> Point, replicas: int)
      ensures this.hash == hash && Snapshot() == EMPTY
      ensures this.replicas == if replicas <= 0 then 150 else replicas
    {
      this.hash := hash;
      ring, sorted, nodes := map[], [], map[];
      this.replicas := if replicas <= 0 then DEFAULT_REPLICAS else replicas;
    }

    method Add(node: string)
      modifies this
      ensures Snapshot() == AfterAdd(hash, old(Snapshot()), node, replicas)
      ensures replicas == old(replicas)
    {
      AddWeighted(node, replicas);
    }

    method AddWeighted(node: string, vnodes: int)
      modifies this
      ensures Snapshot() == AfterAdd(hash, old(Snapshot()), node, vnodes)
      ensures replicas == old(replicas)
    {
      ghost var before := Snapshot();
      if node !in nodes {
        nodes := nodes[node := vnodes];
        var i := 0;
        ghost var pts := Points(hash, node, vnodes);
        while i < vnodes
          invariant 0 <= i <= |pts|
          invariant ring == Claim(before.ring, pts[..i], node)
          invariant sorted == before.sorted + pts[..i]
          invariant nodes == before.nodes[node := vnodes] && replicas == old(replicas)
        {
          var h := hash(VnodeKey(node, i));
          assert pts[..i + 1] == pts[..i] + [h];
          ring := ring[h := node];
          sorted := sorted + [h];
          i := i + 1;
        }
        assert pts[..i] == pts;
        sorted := Sort(sorted);
      }
    }

    method Remove(node: string)
      modifies this
      ensures Snapshot() == AfterRemove(hash, old(Snapshot()), node)
      ensures replicas == old(replicas)
    {
      if node !in nodes {
        return;
      }
      var vnodes := nodes[node];
      nodes := nodes - {node};
      var toRemove: set<Point> := {};
      var i := 0;
      ghost var pts := Points(hash, node, vnodes);
      while i < vnodes
        invariant 0 <= i <= |pts|
        invariant toRemove == set p | p in pts[..i]
        invariant ring == old(ring) - toRemove
        invariant nodes == old(nodes) - {node} && sorted == old(sorted) && replicas == old(replicas)
      {
        var h := hash(VnodeKey(node, i));
        assert pts[..i + 1] == pts[..i] + [h];
        ring := ring - {h};
        toRemove := toRemove + {h};
        i := i + 1;
      }
      assert pts[..i] == pts;
      var filtered: seq<Point> := [];
      for j := 0 to |sorted|
        invariant filtered == FilterOut(sorted[..j], toRemove)
      {
        assert sorted[..j + 1][..j] == sorted[..j];
        if sorted[j] !in toRemove {
          filtered := filtered + [sorted[j]];
        }
      }
      assert sorted[..|sorted|] == sorted;
      sorted := filtered;
    }

    /** `sort.Search` for the first point at or after `h`. */
    method Search(h: Point) returns (idx: nat)
      requires Ascending(sorted)
      ensures IsSearchResult(sorted, h, idx)
    {
      var i, j := 0, |sorted|;
      while i < j
        invariant 0 <= i <= j <= |sorted|
        invariant forall k :: 0 <= k < i ==> sorted[k] < h
        invariant forall k :: j <= k < |sorted| ==> h <= sorted[k]
      {
        var mid := (i + j) / 2;
        if sorted[mid] >= h {
          j := mid;
        } else {
          i := mid + 1;
        }
      }
      return i;
    }

    method Get(key: string) returns (node: string)
      requires Ascending(sorted)
      ensures node == Primary(Snapshot(), hash(key))
    {
      if |sorted| == 0 {
        return "";
      }
      var h := hash(key);
      var idx := Search(h);
      ClockwiseIsRotation(sorted, h, idx);
      if idx == |sorted| {
        idx := 0;
      }
      return OwnerOf(ring, sorted[idx]);
    }

    /** The precondition is the exact condition under which the loop ends, see CollectsIff. */
    method GetN(key: string, n: nat) returns (result: seq<string>)
      requires Ascending(sorted)
      requires Min(n, |nodes|) <= |Preference(Snapshot(), hash(key))|
      ensures result == Replicas(Snapshot(), hash(key), n)
    {
      var h := hash(key);
      if |nodes| == 0 {
        assert Replicas(Snapshot(), h, n) == Preference(Snapshot(), h)[..0] == [];
        return [];
      }
      var idx := Search(h);
      result := CollectFrom(idx, Min(n, |nodes|), h);
    }

    /** The loop of GetN: walk on from `start`, wrapping, until `want` distinct owners are found. */
    method CollectFrom(start: nat, want: nat, ghost h: Point) returns (result: seq<string>)
      requires IsSearchResult(sorted, h, start) && want <= |Preference(Snapshot(), h)|
      ensures result == Take(Preference(Snapshot(), h), want)
    {
      hide Clockwise, Dedup, Owners, Preference, Take, IsSearchResult;
      ghost var lap := Owners(ring, Clockwise(sorted, h));
      PreferenceOfLap(Snapshot(), h, start);
      var idx := start;
      var seen: set<string> := {};
      result := [];
      while |result| < want
        invariant start <= idx <= start + |sorted|
        invariant result == Dedup(lap[..idx - start]) && |result| <= want
        invariant forall x :: x in seen <==> x in result
        decreases start + |sorted| - idx
      {
        DedupIncomplete(lap, idx - start);
        DedupStep(lap, idx - start);
        LapAt(Snapshot(), h, start, idx - start);
        var node := OwnerOf(ring, sorted[idx % |sorted|]);
        if node !in seen {
          seen := seen + {node};
          result := result + [node];
        }
        idx := idx + 1;
      }
      DedupPrefix(lap, idx - start);
      TakeExactly(Dedup(lap), want);
    }
  }

}
