/**
 * The consistent hash ring (internal/consistent/hash.go).
 *
 * `hash` stands for SHA-256 cut to 32 bits and is never interpreted: nothing below assumes
 * that it has no collisions unless a lemma says so.
 */
module ConsistentHash {
  import opened Common

  newtype Point = p: int | 0 <= p < 0x1_0000_0000

  const DEFAULT_REPLICAS := 150

  // ---------------------------------------------------------------- virtual node labels

  /** The string hashed for virtual node `i` of `node`. */
  function VnodeKey(node: string, i: nat): string {
    node + ":" + Decimal(i)
  }

  /** Two virtual nodes share a label only if they are the same virtual node, whatever ':' the names contain. */
  lemma VnodeKeyInjective(x: string, i: nat, y: string, j: nat)
    requires VnodeKey(x, i) == VnodeKey(y, j)
    ensures x == y && i == j
  {
    hide Decimal;
    var s, a, b := VnodeKey(x, i), Decimal(i), Decimal(j);
    assert s[|s| - |a| - 1] == ':' && s[|s| - |a|..] == a;
    assert s[|s| - |b| - 1] == ':' && s[|s| - |b|..] == b;
    assert forall k :: |s| - |a| <= k < |s| ==> s[k] == a[k - (|s| - |a|)] != ':';
    assert forall k :: |s| - |b| <= k < |s| ==> s[k] == b[k - (|s| - |b|)] != ':';
    DecimalInjective(i, j);
    assert x == s[..|x|] && y == s[..|y|];
  }

  /** The points a node claims, in the order the loop appends them. */
  function Points(hash: string -> Point, node: string, vnodes: int): seq<Point> {
    seq(Max(vnodes, 0), i requires 0 <= i => hash(VnodeKey(node, i)))
  }

  /** The label of virtual node `i`, in the source's format. */
  lemma VnodeKeyIs(node: string, i: nat)
    ensures VnodeKey(node, i) == node + ":" + Decimal(i)
  {
  }

  /** A node of weight `w` claims exactly the hashes of its labels 0 up to w-1. */
  lemma PointsAreLabels(hash: string -> Point, node: string, w: int)
    ensures |Points(hash, node, w)| == if w > 0 then w else 0
    ensures forall i: nat :: i < w ==> Points(hash, node, w)[i] == hash(node + ":" + Decimal(i))
  {
    hide Decimal;
    forall i: nat | i < w ensures Points(hash, node, w)[i] == hash(node + ":" + Decimal(i)) {
      VnodeKeyIs(node, i);
    }
  }

  // ---------------------------------------------------------------- sorting and filtering points

  ghost predicate Ascending(s: seq<Point>) {
    forall i, j :: 0 <= i < j < |s| ==> s[i] <= s[j]
  }

  ghost predicate StrictlyAscending(s: seq<Point>) {
    forall i, j :: 0 <= i < j < |s| ==> s[i] < s[j]
  }

  lemma AscendingSnoc(s: seq<Point>, p: Point)
    requires forall q :: q in s ==> q <= p
    ensures Ascending(s) ==> Ascending(s + [p])
    ensures StrictlyAscending(s) && p !in s ==> StrictlyAscending(s + [p])
  {
    assert forall i :: 0 <= i < |s| ==> s[i] in s;
  }

  function Insert(s: seq<Point>, p: Point): seq<Point> {
    if s == [] || s[|s| - 1] <= p then s + [p] else Insert(s[..|s| - 1], p) + [s[|s| - 1]]
  }

  lemma {:induction false} InsertCorrect(s: seq<Point>, p: Point)
    ensures multiset(Insert(s, p)) == multiset(s) + multiset{p}
    ensures forall q :: q in Insert(s, p) ==> q in s || q == p
    ensures Ascending(s) ==> Ascending(Insert(s, p))
  {
    if s == [] || s[|s| - 1] <= p {
      if Ascending(s) {
        AscendingSnoc(s, p);
      }
    } else {
      var front, last := s[..|s| - 1], s[|s| - 1];
      assert s == front + [last];
      InsertCorrect(front, p);
      if Ascending(s) {
        AscendingFront(front, last);
        hide Insert, Ascending;
        AscendingSnoc(Insert(front, p), last);
      }
    }
  }

  lemma AscendingFront(front: seq<Point>, last: Point)
    requires Ascending(front + [last])
    ensures Ascending(front) && forall q :: q in front ==> q <= last
  {
    var s := front + [last];
    assert s[|front|] == last && s[..|front|] == front;
    forall q | q in front ensures q <= last {
      var i :| 0 <= i < |front| && front[i] == q;
      assert s[i] == q;
    }
  }

  /** `sort.Slice` by `<`: any sort returns this list, see AscendingUnique. */
  function Sort(s: seq<Point>): (r: seq<Point>)
    ensures Ascending(r) && multiset(r) == multiset(s)
  {
    if s == [] then []
    else
      assert s == s[..|s| - 1] + [s[|s| - 1]];
      InsertCorrect(Sort(s[..|s| - 1]), s[|s| - 1]);
      Insert(Sort(s[..|s| - 1]), s[|s| - 1])
  }

  lemma {:induction false} AscendingUnique(a: seq<Point>, b: seq<Point>)
    requires Ascending(a) && Ascending(b) && multiset(a) == multiset(b)
    ensures a == b
  {
    SameLength(a, b);
    if a != [] {
      SameHead(a, b);
      SameRest(a, b);
      hide Ascending;
      AscendingUnique(a[1..], b[1..]);
      assert a == [a[0]] + a[1..] && b == [b[0]] + b[1..];
    }
  }

  lemma SameLength(a: seq<Point>, b: seq<Point>)
    requires multiset(a) == multiset(b)
    ensures |a| == |b|
  {
    assert |a| == |multiset(a)| == |multiset(b)| == |b|;
  }

  lemma SameRest(a: seq<Point>, b: seq<Point>)
    requires a != [] && b != [] && a[0] == b[0] && multiset(a) == multiset(b)
    ensures multiset(a[1..]) == multiset(b[1..])
    ensures Ascending(a) ==> Ascending(a[1..])
    ensures Ascending(b) ==> Ascending(b[1..])
  {
    assert a == [a[0]] + a[1..] && b == [b[0]] + b[1..];
    assert multiset(a[1..]) == multiset(a) - multiset{a[0]};
    assert multiset(b[1..]) == multiset(b) - multiset{b[0]};
  }

  lemma SameHead(a: seq<Point>, b: seq<Point>)
    requires Ascending(a) && Ascending(b) && multiset(a) == multiset(b) && a != [] && b != []
    ensures a[0] == b[0]
  {
    SameMembers(a, b);
    assert a[0] in b && b[0] in a;
  }

  lemma SameMembers(a: seq<Point>, b: seq<Point>)
    requires multiset(a) == multiset(b)
    ensures forall p :: p in a <==> p in b
  {
    forall p ensures p in a <==> p in b {
      assert p in a <==> p in multiset(a);
      assert p in b <==> p in multiset(b);
    }
  }

  /** What the in-place filter of Remove leaves. */
  function FilterOut(s: seq<Point>, gone: set<Point>): seq<Point> {
    if s == [] then []
    else
      var r := FilterOut(s[..|s| - 1], gone);
      if s[|s| - 1] in gone then r else r + [s[|s| - 1]]
  }

  lemma {:induction false} FilterOutMembers(s: seq<Point>, gone: set<Point>)
    ensures forall p :: p in FilterOut(s, gone) <==> p in s && p !in gone
  {
    if s != [] {
      FilterOutMembers(s[..|s| - 1], gone);
      assert s == s[..|s| - 1] + [s[|s| - 1]];
    }
  }

  lemma {:induction false} FilterOutAscending(s: seq<Point>, gone: set<Point>)
    ensures Ascending(s) ==> Ascending(FilterOut(s, gone))
    ensures StrictlyAscending(s) ==> StrictlyAscending(FilterOut(s, gone))
  {
    if s != [] {
      var front, last := s[..|s| - 1], s[|s| - 1];
      FilterOutAscending(front, gone);
      var r := FilterOut(front, gone);
      FilterOutMembers(front, gone);
      if Ascending(s) {
        assert forall q :: q in front ==> q <= last;
        AscendingSnoc(r, last);
      }
      if StrictlyAscending(s) {
        assert forall q :: q in front ==> q < last;
        AscendingSnoc(r, last);
      }
    }
  }

  lemma {:induction false} FilterOutCount(s: seq<Point>, gone: set<Point>, p: Point)
    ensures multiset(FilterOut(s, gone))[p] == if p in gone then 0 else multiset(s)[p]
  {
    if s != [] {
      FilterOutCount(s[..|s| - 1], gone, p);
      assert s == s[..|s| - 1] + [s[|s| - 1]];
    }
  }

  /** The points of `s` from `lo` up to but not including `hi`. */
  function Between(s: seq<Point>, lo: int, hi: int): seq<Point> {
    if s == [] then []
    else
      var r := Between(s[..|s| - 1], lo, hi);
      if lo <= s[|s| - 1] as int < hi then r + [s[|s| - 1]] else r
  }

  lemma {:induction false} BetweenMembers(s: seq<Point>, lo: int, hi: int)
    ensures forall p :: p in Between(s, lo, hi) <==> p in s && lo <= p as int < hi
  {
    if s != [] {
      BetweenMembers(s[..|s| - 1], lo, hi);
      assert s == s[..|s| - 1] + [s[|s| - 1]];
    }
  }

  lemma FilterOutSnoc(s: seq<Point>, p: Point, gone: set<Point>)
    ensures FilterOut(s + [p], gone) == if p in gone then FilterOut(s, gone) else FilterOut(s, gone) + [p]
  {
    assert (s + [p])[..|s|] == s;
  }

  lemma BetweenSnoc(s: seq<Point>, p: Point, lo: int, hi: int)
    ensures Between(s + [p], lo, hi) == if lo <= p as int < hi then Between(s, lo, hi) + [p] else Between(s, lo, hi)
  {
    assert (s + [p])[..|s|] == s;
  }

  lemma {:induction false} BetweenFilterOut(s: seq<Point>, gone: set<Point>, lo: int, hi: int)
    ensures Between(FilterOut(s, gone), lo, hi) == FilterOut(Between(s, lo, hi), gone)
  {
    if s != [] {
      var front, last := s[..|s| - 1], s[|s| - 1];
      BetweenFilterOut(front, gone, lo, hi);
      BetweenSnoc(FilterOut(front, gone), last, lo, hi);
      FilterOutSnoc(Between(front, lo, hi), last, gone);
    }
  }

  lemma {:induction false} FilterOutAppend(s: seq<Point>, t: seq<Point>, gone: set<Point>)
    ensures FilterOut(s + t, gone) == FilterOut(s, gone) + FilterOut(t, gone)
  {
    if t == [] {
      assert s + t == s;
    } else {
      assert (s + t)[..|s + t| - 1] == s + t[..|t| - 1];
      FilterOutAppend(s, t[..|t| - 1], gone);
    }
  }

  /** The lap a lookup walks: from the first point at or after `h` to the end, then from the start. */
  function Clockwise(sorted: seq<Point>, h: Point): seq<Point> {
    Between(sorted, h as int, 0x1_0000_0000) + Between(sorted, 0, h as int)
  }

  lemma ClockwiseMembers(sorted: seq<Point>, h: Point)
    ensures forall p :: p in Clockwise(sorted, h) <==> p in sorted
  {
    BetweenMembers(sorted, h as int, 0x1_0000_0000);
    BetweenMembers(sorted, 0, h as int);
  }

  lemma {:induction false} BetweenIsSlice(s: seq<Point>, i: nat, j: nat, lo: int, hi: int)
    requires i <= j <= |s|
    requires forall k :: 0 <= k < |s| ==> (i <= k < j <==> lo <= s[k] as int < hi)
    ensures Between(s, lo, hi) == s[i..j]
  {
    if s != [] {
      var front := s[..|s| - 1];
      if j == |s| && i < j {
        BetweenIsSlice(front, i, j - 1, lo, hi);
        assert s[i..j] == front[i..j - 1] + [s[|s| - 1]];
      } else if j == |s| {
        BetweenIsSlice(front, |front|, |front|, lo, hi);
      } else {
        BetweenIsSlice(front, i, j, lo, hi);
        assert s[i..j] == front[i..j];
      }
    }
  }

  // ---------------------------------------------------------------- the state and its operations

  datatype State = State(ring: map<Point, string>, sorted: seq<Point>, nodes: map<string, int>)

  const EMPTY := State(map[], [], map[])

  /** The loop that hands every point of `pts` to `node`, whoever owned it. */
  function Claim(ring: map<Point, string>, pts: seq<Point>, node: string): map<Point, string> {
    if pts == [] then ring else Claim(ring, pts[..|pts| - 1], node)[pts[|pts| - 1] := node]
  }

  lemma {:induction false} Claimed(ring: map<Point, string>, pts: seq<Point>, node: string)
    ensures forall p :: p in Claim(ring, pts, node) <==> p in ring || p in pts
    ensures forall p :: p in Claim(ring, pts, node) ==>
              Claim(ring, pts, node)[p] == if p in pts then node else ring[p]
  {
    if pts != [] {
      Claimed(ring, pts[..|pts| - 1], node);
      assert pts == pts[..|pts| - 1] + [pts[|pts| - 1]];
    }
  }

  function AfterAdd(hash: string -> Point, s: State, node: string, vnodes: int): State {
    if node in s.nodes then s
    else
      var pts := Points(hash, node, vnodes);
      State(Claim(s.ring, pts, node), Sort(s.sorted + pts), s.nodes[node := vnodes])
  }

  function AfterRemove(hash: string -> Point, s: State, node: string): State {
    if node !in s.nodes then s
    else
      var gone := set p | p in Points(hash, node, s.nodes[node]);
      State(s.ring - gone, FilterOut(s.sorted, gone), s.nodes - {node})
  }

  /** A Go map read: the zero value when the key is missing. */
  function OwnerOf(ring: map<Point, string>, p: Point): string {
    if p in ring then ring[p] else ""
  }

  function Owners(ring: map<Point, string>, pts: seq<Point>): seq<string> {
    seq(|pts|, i requires 0 <= i < |pts| => OwnerOf(ring, pts[i]))
  }

  /** Every owner met on the lap from `h`, once, in clockwise order: the replica preference list. */
  function Preference(s: State, h: Point): seq<string> {
    Dedup(Owners(s.ring, Clockwise(s.sorted, h)))
  }

  // ---------------------------------------------------------------- invariants

  /** Holds in every reachable state, collisions or not: every listed point has a registered owner that claims it. */
  ghost predicate WellFormed(hash: string -> Point, s: State) {
    && Ascending(s.sorted)
    && (forall p :: p in s.sorted <==> p in s.ring)
    && OwnersClaim(hash, s.ring, s.nodes)
  }

  ghost predicate OwnersClaim(hash: string -> Point, ring: map<Point, string>, nodes: map<string, int>) {
    forall p :: p in ring ==> ring[p] in nodes && p in Points(hash, ring[p], nodes[ring[p]])
  }

  /** No registered node lost a point to another one. */
  ghost predicate Undisturbed(hash: string -> Point, ring: map<Point, string>, nodes: map<string, int>) {
    forall x, p :: x in nodes && p in Points(hash, x, nodes[x]) ==> p in ring && ring[p] == x
  }

  /** Nodes own exactly their points and `sorted` lists the owned points once each. */
  ghost predicate Exact(hash: string -> Point, s: State) {
    WellFormed(hash, s) && StrictlyAscending(s.sorted) && Undisturbed(hash, s.ring, s.nodes)
  }

  lemma AddKeepsWellFormed(hash: string -> Point, s: State, node: string, vnodes: int)
    requires WellFormed(hash, s)
    ensures WellFormed(hash, AfterAdd(hash, s, node, vnodes))
  {
    if node !in s.nodes {
      var pts := Points(hash, node, vnodes);
      SameMembers(Sort(s.sorted + pts), s.sorted + pts);
      Claimed(s.ring, pts, node);
      var ring := Claim(s.ring, pts, node);
      forall p | p in ring && p !in pts ensures ring[p] == s.ring[p] != node {
        assert ring[p] in s.nodes;
      }
    }
  }

  lemma RemoveKeepsWellFormed(hash: string -> Point, s: State, node: string)
    requires WellFormed(hash, s)
    ensures WellFormed(hash, AfterRemove(hash, s, node))
  {
    if node in s.nodes {
      var gone := set p | p in Points(hash, node, s.nodes[node]);
      FilterOutAscending(s.sorted, gone);
      FilterOutMembers(s.sorted, gone);
    }
  }

  /** The guard of a collision-free registration: new, duplicate-free points that nobody owns. */
  ghost predicate Fresh(hash: string -> Point, s: State, node: string, vnodes: int) {
    var pts := Points(hash, node, vnodes);
    Distinct(pts) && forall p :: p in pts ==> p !in s.ring
  }

  lemma DistinctAscendingIsStrict(s: seq<Point>, r: seq<Point>)
    requires Distinct(s) && Ascending(r) && multiset(r) == multiset(s)
    ensures StrictlyAscending(r)
  {
    forall i, j | 0 <= i < j < |r| ensures r[i] < r[j] {
      if r[i] == r[j] {
        MultiplicityTwo(r, i, j);
        MultiplicityOne(s, r[i]);
      }
    }
  }

  lemma MultiplicityTwo(r: seq<Point>, i: nat, j: nat)
    requires i < j < |r| && r[i] == r[j]
    ensures multiset(r)[r[i]] >= 2
  {
    assert r == r[..j] + [r[j]] + r[j + 1..];
    assert r[i] in r[..j];
  }

  lemma {:induction false} MultiplicityOne(s: seq<Point>, p: Point)
    requires Distinct(s)
    ensures multiset(s)[p] <= 1
  {
    if s != [] {
      MultiplicityOne(s[..|s| - 1], p);
      assert s == s[..|s| - 1] + [s[|s| - 1]];
    }
  }

  lemma AddKeepsUndisturbed(hash: string -> Point, s: State, node: string, vnodes: int)
    requires Undisturbed(hash, s.ring, s.nodes) && node !in s.nodes && Fresh(hash, s, node, vnodes)
    ensures Undisturbed(hash, AfterAdd(hash, s, node, vnodes).ring, s.nodes[node := vnodes])
  {
    var pts := Points(hash, node, vnodes);
    var ring, nodes := Claim(s.ring, pts, node), s.nodes[node := vnodes];
    Claimed(s.ring, pts, node);
    forall x, p | x in nodes && p in Points(hash, x, nodes[x]) ensures p in ring && ring[p] == x {
      if x != node {
        assert p in s.ring && s.ring[p] == x;
      }
    }
  }

  lemma AddKeepsExact(hash: string -> Point, s: State, node: string, vnodes: int)
    requires Exact(hash, s) && (node in s.nodes || Fresh(hash, s, node, vnodes))
    ensures Exact(hash, AfterAdd(hash, s, node, vnodes))
  {
    AddKeepsWellFormed(hash, s, node, vnodes);
    if node !in s.nodes {
      AddKeepsUndisturbed(hash, s, node, vnodes);
      var pts := Points(hash, node, vnodes);
      DistinctAppend(s.sorted, pts);
      DistinctAscendingIsStrict(s.sorted + pts, Sort(s.sorted + pts));
    }
  }

  lemma DistinctAppend(s: seq<Point>, t: seq<Point>)
    requires Distinct(s) && Distinct(t) && forall p :: p in t ==> p !in s
    ensures Distinct(s + t)
  {
    assert forall i :: 0 <= i < |s| ==> s[i] in s;
    assert forall j :: 0 <= j < |t| ==> t[j] in t;
  }

  lemma RemoveKeepsUndisturbed(hash: string -> Point, s: State, node: string)
    requires Undisturbed(hash, s.ring, s.nodes) && node in s.nodes
    ensures Undisturbed(hash, AfterRemove(hash, s, node).ring, s.nodes - {node})
  {
    var ring, nodes := AfterRemove(hash, s, node).ring, s.nodes - {node};
    forall x, p | x in nodes && p in Points(hash, x, nodes[x]) ensures p in ring && ring[p] == x {
      assert s.nodes[x] == nodes[x] && p in s.ring && s.ring[p] == x;
    }
  }

  lemma RemoveKeepsExact(hash: string -> Point, s: State, node: string)
    requires Exact(hash, s)
    ensures Exact(hash, AfterRemove(hash, s, node))
  {
    RemoveKeepsWellFormed(hash, s, node);
    if node in s.nodes {
      RemoveKeepsUndisturbed(hash, s, node);
      var gone := set p | p in Points(hash, node, s.nodes[node]);
      FilterOutAscending(s.sorted, gone);
      FilterOutMembers(s.sorted, gone);
    }
  }

  /** On an exact ring a node owns the hashes of its labels, up to its weight. */
  lemma ExactOwnsLabels(hash: string -> Point, s: State, x: string, i: nat)
    requires Exact(hash, s) && x in s.nodes && i < s.nodes[x]
    ensures var p := hash(x + ":" + Decimal(i)); p in s.sorted && p in s.ring && s.ring[p] == x
  {
    hide Decimal;
    PointsAreLabels(hash, x, s.nodes[x]);
    assert Points(hash, x, s.nodes[x])[i] in Points(hash, x, s.nodes[x]);
  }

  /** And nobody owns anything else. */
  lemma ExactOwnsOnlyLabels(hash: string -> Point, s: State, p: Point) returns (i: nat)
    requires Exact(hash, s) && p in s.sorted
    ensures p in s.ring && s.ring[p] in s.nodes && i < s.nodes[s.ring[p]] && p == hash(s.ring[p] + ":" + Decimal(i))
  {
    hide Decimal;
    var x := s.ring[p];
    var pts := Points(hash, x, s.nodes[x]);
    PointsAreLabels(hash, x, s.nodes[x]);
    i :| 0 <= i < |pts| && pts[i] == p;
  }

  // ---------------------------------------------------------------- histories

  datatype Op = Add(node: string, vnodes: int) | Del(node: string)

  function Apply(hash: string -> Point, s: State, op: Op): State {
    match op
    case Add(node, vnodes) => AfterAdd(hash, s, node, vnodes)
    case Del(node) => AfterRemove(hash, s, node)
  }

  function Run(hash: string -> Point, ops: seq<Op>): State {
    if ops == [] then EMPTY else Apply(hash, Run(hash, ops[..|ops| - 1]), ops[|ops| - 1])
  }

  /** Every registration in the history met the guard Fresh when it happened. */
  ghost predicate CollisionFree(hash: string -> Point, ops: seq<Op>) {
    ops == [] ||
    var before, op := Run(hash, ops[..|ops| - 1]), ops[|ops| - 1];
    && CollisionFree(hash, ops[..|ops| - 1])
    && (op.Add? ==> op.node in before.nodes || Fresh(hash, before, op.node, op.vnodes))
  }

  lemma {:induction false} RunIsExact(hash: string -> Point, ops: seq<Op>)
    requires CollisionFree(hash, ops)
    ensures Exact(hash, Run(hash, ops))
  {
    if ops != [] {
      RunIsExact(hash, ops[..|ops| - 1]);
      var before, op := Run(hash, ops[..|ops| - 1]), ops[|ops| - 1];
      match op
      case Add(node, vnodes) => AddKeepsExact(hash, before, node, vnodes);
      case Del(node) => RemoveKeepsExact(hash, before, node);
    }
  }

  lemma {:induction false} StrictlyAscendingUnique(a: seq<Point>, b: seq<Point>)
    requires StrictlyAscending(a) && StrictlyAscending(b)
    requires forall p :: p in a <==> p in b
    ensures a == b
  {
    DistinctCardinality(a);
    DistinctCardinality(b);
    assert Elems(a) == Elems(b);
    if a != [] {
      assert a[0] in b && b[0] in a;
      forall p ensures p in a[1..] <==> p in b[1..] {
        assert p in a[1..] <==> p in a && p != a[0];
        assert p in b[1..] <==> p in b && p != b[0];
      }
      StrictlyAscendingUnique(a[1..], b[1..]);
    }
  }

  /** The final node map determines the whole ring. */
  lemma ExactUnique(hash: string -> Point, s: State, t: State)
    requires Exact(hash, s) && Exact(hash, t) && s.nodes == t.nodes
    ensures s == t
  {
    assert s.ring == t.ring;
    StrictlyAscendingUnique(s.sorted, t.sorted);
  }

  /** Two pods that reach the same weighted node set, by whatever registrations and removals, hold the same ring. */
  lemma HistoryIndependence(hash: string -> Point, ops1: seq<Op>, ops2: seq<Op>)
    requires CollisionFree(hash, ops1) && CollisionFree(hash, ops2)
    requires Run(hash, ops1).nodes == Run(hash, ops2).nodes
    ensures Run(hash, ops1) == Run(hash, ops2)
    ensures forall h :: Preference(Run(hash, ops1), h) == Preference(Run(hash, ops2), h)
  {
    RunIsExact(hash, ops1);
    RunIsExact(hash, ops2);
    ExactUnique(hash, Run(hash, ops1), Run(hash, ops2));
  }

  /** The hash separates the labels of all virtual nodes the history ever registers. */
  ghost predicate HashSeparates(hash: string -> Point, ops: seq<Op>) {
    forall a, b, i: nat, j: nat |
      && a in ops && b in ops && a.Add? && b.Add? && i < a.vnodes && j < b.vnodes
      && hash(VnodeKey(a.node, i)) == hash(VnodeKey(b.node, j))
      :: VnodeKey(a.node, i) == VnodeKey(b.node, j)
  }

  lemma {:induction false} NodesComeFromOps(hash: string -> Point, ops: seq<Op>, x: string)
    requires x in Run(hash, ops).nodes
    ensures Add(x, Run(hash, ops).nodes[x]) in ops
  {
    var front, op := ops[..|ops| - 1], ops[|ops| - 1];
    if x in Run(hash, front).nodes {
      NodesComeFromOps(hash, front, x);
      assert forall o :: o in front ==> o in ops;
    }
  }

  /** Two points that the history hashes to the same place belong to the same virtual node. */
  lemma SeparatedPoints(hash: string -> Point, ops: seq<Op>, a: Op, i: nat, b: Op, j: nat)
    requires HashSeparates(hash, ops) && a in ops && b in ops && a.Add? && b.Add? && i < a.vnodes && j < b.vnodes
    requires hash(VnodeKey(a.node, i)) == hash(VnodeKey(b.node, j))
    ensures a.node == b.node && i == j
  {
    VnodeKeyInjective(a.node, i, b.node, j);
  }

  lemma SeparatedIsFresh(hash: string -> Point, ops: seq<Op>, front: seq<Op>, op: Op)
    requires HashSeparates(hash, ops) && ops == front + [op] && op.Add? && WellFormed(hash, Run(hash, front))
    requires op.node !in Run(hash, front).nodes
    ensures Fresh(hash, Run(hash, front), op.node, op.vnodes)
  {
    hide HashSeparates, Run, VnodeKey;
    var before, pts := Run(hash, front), Points(hash, op.node, op.vnodes);
    assert op in ops;
    forall i, j | 0 <= i < j < |pts| ensures pts[i] != pts[j] {
      if pts[i] == pts[j] { SeparatedPoints(hash, ops, op, i, op, j); }
    }
    forall p | p in pts ensures p !in before.ring {
      if p in before.ring {
        var x := before.ring[p];
        var own := Points(hash, x, before.nodes[x]);
        NodesComeFromOps(hash, front, x);
        var i :| 0 <= i < |pts| && pts[i] == p;
        var j :| 0 <= j < |own| && own[j] == p;
        SeparatedPoints(hash, ops, Add(x, before.nodes[x]), j, op, i);
      }
    }
  }

  /** The label format adds no collisions of its own: only the hash can break a history. */
  lemma {:induction false} SeparatingHashIsCollisionFree(hash: string -> Point, ops: seq<Op>)
    requires HashSeparates(hash, ops)
    ensures CollisionFree(hash, ops)
  {
    if ops != [] {
      var front, op := ops[..|ops| - 1], ops[|ops| - 1];
      assert ops == front + [op];
      assert forall o :: o in front ==> o in ops;
      SeparatingHashIsCollisionFree(hash, front);
      hide HashSeparates, Fresh, Run;
      RunIsExact(hash, front);
      if op.Add? && op.node !in Run(hash, front).nodes {
        SeparatedIsFresh(hash, ops, front, op);
      }
    }
  }

  lemma {:induction false} RunIsWellFormed(hash: string -> Point, ops: seq<Op>)
    ensures WellFormed(hash, Run(hash, ops))
  {
    if ops != [] {
      RunIsWellFormed(hash, ops[..|ops| - 1]);
      var before, op := Run(hash, ops[..|ops| - 1]), ops[|ops| - 1];
      match op
      case Add(node, vnodes) => AddKeepsWellFormed(hash, before, node, vnodes);
      case Del(node) => RemoveKeepsWellFormed(hash, before, node);
    }
  }

  // ---------------------------------------------------------------- what collisions break, exactly

  lemma FilterUndoesSort(sorted: seq<Point>, pts: seq<Point>)
    requires Ascending(sorted) && forall p :: p in pts ==> p !in sorted
    ensures FilterOut(Sort(sorted + pts), set p | p in pts) == sorted
  {
    var gone := set p | p in pts;
    FilterOutAscending(Sort(sorted + pts), gone);
    forall p ensures multiset(FilterOut(Sort(sorted + pts), gone))[p] == multiset(sorted)[p] {
      FilterUndoesSortAt(sorted, pts, gone, p);
    }
    AscendingUnique(FilterOut(Sort(sorted + pts), gone), sorted);
  }

  lemma FilterUndoesSortAt(sorted: seq<Point>, pts: seq<Point>, gone: set<Point>, p: Point)
    requires (p in gone <==> p in pts) && (p in pts ==> p !in sorted)
    ensures multiset(FilterOut(Sort(sorted + pts), gone))[p] == multiset(sorted)[p]
  {
    FilterOutCount(Sort(sorted + pts), gone, p);
    assert multiset(sorted + pts)[p] == multiset(sorted)[p] + multiset(pts)[p];
    assert p in pts <==> p in multiset(pts);
    assert p in sorted <==> p in multiset(sorted);
  }

  lemma SortInEitherOrder(s: seq<Point>, a: seq<Point>, b: seq<Point>)
    ensures Sort(Sort(s + a) + b) == Sort(Sort(s + b) + a)
  {
    assert multiset(Sort(s + a) + b) == multiset(s) + multiset(a) + multiset(b);
    assert multiset(Sort(s + b) + a) == multiset(s) + multiset(b) + multiset(a);
    AscendingUnique(Sort(Sort(s + a) + b), Sort(Sort(s + b) + a));
  }

  lemma UnclaimUndoesClaim(ring: map<Point, string>, pts: seq<Point>, node: string)
    ensures Claim(ring, pts, node) - (set p | p in pts) == ring <==> forall p :: p in pts ==> p !in ring
  {
    var after := Claim(ring, pts, node) - (set p | p in pts);
    Claimed(ring, pts, node);
    if p :| p in pts && p in ring {
      assert p !in after;
    } else {
      assert after == ring;
    }
  }

  /** Who owns `p` when `a` is claimed for `x` and then `b` for `y`. */
  lemma ClaimedTwice(ring: map<Point, string>, a: seq<Point>, x: string, b: seq<Point>, y: string, p: Point)
    ensures var both := Claim(Claim(ring, a, x), b, y);
            && (p in both <==> p in ring || p in a || p in b)
            && (p in both ==> both[p] == if p in b then y else if p in a then x else ring[p])
  {
    Claimed(ring, a, x);
    Claimed(Claim(ring, a, x), b, y);
    hide Claim;
  }

  lemma ClaimsCommuteIff(ring: map<Point, string>, a: seq<Point>, x: string, b: seq<Point>, y: string)
    requires x != y
    ensures Claim(Claim(ring, a, x), b, y) == Claim(Claim(ring, b, y), a, x) <==> forall p :: p in a ==> p !in b
  {
    hide Claim;
    var xy, yx := Claim(Claim(ring, a, x), b, y), Claim(Claim(ring, b, y), a, x);
    if p :| p in a && p in b {
      ClaimedTwice(ring, a, x, b, y, p);
      ClaimedTwice(ring, b, y, a, x, p);
      assert xy[p] == y && yx[p] == x;
    } else {
      forall p ensures (p in xy <==> p in yx) && (p in xy ==> xy[p] == yx[p]) {
        ClaimedTwice(ring, a, x, b, y, p);
        ClaimedTwice(ring, b, y, a, x, p);
      }
      assert xy == yx;
    }
  }

  /**
   * Registering a new node and removing it again restores the ring if and only if none of its points
   * was owned before. On a collision the removal also deletes the point the other node still claims.
   */
  lemma AddThenRemoveIsIdentityIff(hash: string -> Point, s: State, node: string, vnodes: int)
    requires WellFormed(hash, s) && node !in s.nodes
    ensures AfterRemove(hash, AfterAdd(hash, s, node, vnodes), node) == s
            <==> forall p :: p in Points(hash, node, vnodes) ==> p !in s.ring
  {
    var pts := Points(hash, node, vnodes);
    assert s.nodes[node := vnodes] - {node} == s.nodes;
    UnclaimUndoesClaim(s.ring, pts, node);
    if forall p :: p in pts ==> p !in s.ring {
      FilterUndoesSort(s.sorted, pts);
    }
  }

  /** Two new nodes can be registered in either order with the same result if and only if they share no point. */
  lemma OrderIrrelevantIff(hash: string -> Point, s: State, x: string, v: int, y: string, w: int)
    requires x != y && x !in s.nodes && y !in s.nodes
    ensures AfterAdd(hash, AfterAdd(hash, s, x, v), y, w) == AfterAdd(hash, AfterAdd(hash, s, y, w), x, v)
            <==> forall p :: p in Points(hash, x, v) ==> p !in Points(hash, y, w)
  {
    hide *;
    var a, b := Points(hash, x, v), Points(hash, y, w);
    var xy := AddTwice(hash, s, x, v, y, w);
    var yx := AddTwice(hash, s, y, w, x, v);
    assert xy.nodes == yx.nodes;
    SortInEitherOrder(s.sorted, a, b);
    ClaimsCommuteIff(s.ring, a, x, b, y);
  }

  lemma AddTwice(hash: string -> Point, s: State, x: string, v: int, y: string, w: int) returns (t: State)
    requires x != y && x !in s.nodes && y !in s.nodes
    ensures t == AfterAdd(hash, AfterAdd(hash, s, x, v), y, w)
    ensures t.ring == Claim(Claim(s.ring, Points(hash, x, v), x), Points(hash, y, w), y)
    ensures t.sorted == Sort(Sort(s.sorted + Points(hash, x, v)) + Points(hash, y, w))
    ensures t.nodes == s.nodes[x := v][y := w]
  {
    t := AfterAdd(hash, AfterAdd(hash, s, x, v), y, w);
  }
}
