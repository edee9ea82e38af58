/**
 * The rates of a funnel query (Funnel in internal/querying/service.go), from how many users ClickHouse saw reach each
 * level. Rates are real numbers here.
 */
module FunnelRates {
  import opened Common

  datatype Row = Row(level: int, count: nat)

  datatype FunnelStep = FunnelStep(name: string, users: nat, conversion: real, dropOff: real)

  /** How many users reached at least `level`. */
  function AtLeast(rows: seq<Row>, level: int): nat {
    if rows == [] then 0
    else
      var row := rows[|rows| - 1];
      AtLeast(rows[..|rows| - 1], level) + if row.level >= level then row.count else 0
  }

  /** The users who completed step `i`. */
  function Users(rows: seq<Row>, i: nat): nat {
    AtLeast(rows, i + 1)
  }

  lemma {:induction false} AtLeastAntitone(rows: seq<Row>, low: int, high: int)
    requires low <= high
    ensures AtLeast(rows, high) <= AtLeast(rows, low)
  {
    if rows != [] {
      AtLeastAntitone(rows[..|rows| - 1], low, high);
    }
  }

  // ---------------------------------------------------------------- the level map and its iteration order

  function Get(m: map<int, nat>, level: int): nat {
    if level in m then m[level] else 0
  }

  function LevelCounts(rows: seq<Row>): map<int, nat> {
    if rows == [] then map[]
    else
      var m, row := LevelCounts(rows[..|rows| - 1]), rows[|rows| - 1];
      m[row.level := Get(m, row.level) + row.count]
  }

  /** What ranging over the map in this order adds up. */
  function SumOver(m: map<int, nat>, order: seq<int>, level: int): nat {
    if order == [] then 0
    else
      var l := order[|order| - 1];
      SumOver(m, order[..|order| - 1], level) + if l >= level then Get(m, l) else 0
  }

  /** An order in which Go may range over the map: any. */
  ghost predicate Enumerates(order: seq<int>, m: map<int, nat>) {
    Distinct(order) && forall l :: l in order <==> l in m
  }

  lemma {:induction false} SumElsewhere(m: map<int, nat>, order: seq<int>, l: int, v: nat, level: int)
    requires l !in order
    ensures SumOver(m[l := v], order, level) == SumOver(m, order, level)
  {
    if order != [] {
      SumElsewhere(m, order[..|order| - 1], l, v, level);
    }
  }

  /** Giving level `l` the count `v`. */
  lemma {:induction false} SumUpdate(m: map<int, nat>, order: seq<int>, l: int, v: nat, level: int)
    requires Distinct(order) && l in order
    ensures SumOver(m[l := v], order, level) == SumOver(m, Without(order, l), level) + if l >= level then v else 0
  {
    var front, last := order[..|order| - 1], order[|order| - 1];
    assert order == front + [last];
    WithoutSnoc(front, last, l);
    if last == l {
      assert l !in front by { LastIsNew(order); }
      WithoutAbsent(front, l);
      SumElsewhere(m, front, l, v, level);
    } else {
      SumUpdate(m, front, l, v, level);
      var rest := Without(front, l);
      assert (rest + [last])[..|rest|] == rest;
    }
  }

  lemma EnumeratesWithout(order: seq<int>, m: map<int, nat>, l: int, v: nat)
    requires Enumerates(order, m[l := v]) && l !in m
    ensures Enumerates(Without(order, l), m)
  {
    WithoutMembers(order, l);
    WithoutDistinct(order, l);
  }

  lemma {:induction false} SumOverNothing(order: seq<int>, level: int)
    ensures SumOver(map[], order, level) == 0
  {
    if order != [] {
      SumOverNothing(order[..|order| - 1], level);
    }
  }

  /** In whatever order the map is ranged over, the sum is the number of users at that level or beyond. */
  lemma {:induction false} SumIsAtLeast(rows: seq<Row>, order: seq<int>, level: int)
    requires Enumerates(order, LevelCounts(rows))
    ensures SumOver(LevelCounts(rows), order, level) == AtLeast(rows, level)
  {
    if rows == [] {
      SumOverNothing(order, level);
    } else {
      var front, row := rows[..|rows| - 1], rows[|rows| - 1];
      var m, l := LevelCounts(front), row.level;
      var v := Get(m, l) + row.count;
      assert l in order;
      SumUpdate(m, order, l, v, level);
      if l in m {
        assert m[l := m[l]] == m;
        SumUpdate(m, order, l, m[l], level);
        assert forall k :: k in m[l := v] <==> k in m;
        SumIsAtLeast(front, order, level);
      } else {
        EnumeratesWithout(order, m, l, v);
        SumIsAtLeast(front, Without(order, l), level);
      }
    }
  }

  // ---------------------------------------------------------------- the steps

  function ConversionRate(rows: seq<Row>, i: nat): real {
    if i == 0 then
      if Users(rows, 0) > 0 then 1.0 else 0.0
    else if Users(rows, i - 1) > 0 && Users(rows, 0) > 0 then Users(rows, i) as real / Users(rows, 0) as real
    else 0.0
  }

  function DropOffRate(rows: seq<Row>, i: nat, n: nat): real {
    if i + 1 < n && Users(rows, i) > 0 then 1.0 - Users(rows, i + 1) as real / Users(rows, i) as real else 0.0
  }

  function StepOf(names: seq<string>, rows: seq<Row>, i: nat): FunnelStep
    requires i < |names|
  {
    FunnelStep(names[i], Users(rows, i), ConversionRate(rows, i), DropOffRate(rows, i, |names|))
  }

  /** `orders[i]` is the order in which step `i` ranges over the level map. */
  method Rates(names: seq<string>, rows: seq<Row>, orders: seq<seq<int>>) returns (steps: seq<FunnelStep>)
    requires |orders| == |names|
    requires forall i :: 0 <= i < |orders| ==> Enumerates(orders[i], LevelCounts(rows))
    ensures |steps| == |names|
    ensures forall i :: 0 <= i < |names| ==> steps[i] == StepOf(names, rows, i)
  {
    hide AtLeast, SumOver, Enumerates, ConversionRate, DropOffRate;
    var levelCounts := CountLevels(rows);
    var a := new FunnelStep[|names|](_ => FunnelStep("", 0, 0.0, 0.0));
    for i := 0 to |names|
      invariant forall k :: 0 <= k < i ==> a[k] == FunnelStep(names[k], Users(rows, k), 0.0, 0.0)
    {
      var users := SumLevels(levelCounts, orders[i], i + 1);
      SumIsAtLeast(rows, orders[i], i + 1);
      a[i] := FunnelStep(names[i], users, 0.0, 0.0);
    }
    FillRates(a, names, rows);
    steps := a[..];
  }

  /** First loop: add up the rows of each level. */
  method CountLevels(rows: seq<Row>) returns (levelCounts: map<int, nat>)
    ensures levelCounts == LevelCounts(rows)
  {
    levelCounts := map[];
    for r := 0 to |rows|
      invariant levelCounts == LevelCounts(rows[..r])
    {
      assert rows[..r + 1][..r] == rows[..r];
      levelCounts := levelCounts[rows[r].level := Get(levelCounts, rows[r].level) + rows[r].count];
    }
    assert rows[..|rows|] == rows;
  }

  /** The inner loop over the level map, in the given order. */
  method SumLevels(levelCounts: map<int, nat>, order: seq<int>, level: int) returns (users: nat)
    ensures users == SumOver(levelCounts, order, level)
  {
    users := 0;
    for j := 0 to |order|
      invariant users == SumOver(levelCounts, order[..j], level)
    {
      assert order[..j + 1][..j] == order[..j];
      if order[j] >= level {
        users := users + Get(levelCounts, order[j]);
      }
    }
    assert order[..|order|] == order;
  }

  /** Last loop: each iteration sets its own conversion rate and the drop-off rate of the step before. */
  method FillRates(a: array<FunnelStep>, names: seq<string>, rows: seq<Row>)
    requires a.Length == |names|
    requires forall k :: 0 <= k < |names| ==> a[k] == FunnelStep(names[k], Users(rows, k), 0.0, 0.0)
    modifies a
    ensures forall k :: 0 <= k < |names| ==> a[k] == StepOf(names, rows, k)
  {
    hide AtLeast;
    for i := 0 to a.Length
      invariant forall k :: 0 <= k < a.Length ==> a[k] == StepBefore(names, rows, k, i)
    {
      if i == 0 && a[0].users > 0 {
        a[i] := a[i].(conversion := 1.0);
      } else if i > 0 && a[i - 1].users > 0 {
        AtLeastAntitone(rows, 1, i);
        a[i] := a[i].(conversion := a[i].users as real / a[0].users as real);
        a[i - 1] := a[i - 1].(dropOff := 1.0 - a[i].users as real / a[i - 1].users as real);
      }
    }
  }

  /** Step `k` when iterations 0..i of the rate loop are done. */
  ghost function StepBefore(names: seq<string>, rows: seq<Row>, k: nat, i: nat): FunnelStep
    requires k < |names|
  {
    FunnelStep(names[k], Users(rows, k),
               if k < i then ConversionRate(rows, k) else 0.0,
               if k + 1 < i then DropOffRate(rows, k, |names|) else 0.0)
  }

  // ---------------------------------------------------------------- what the rates say

  /** Later steps never have more users, and every rate is a proportion. */
  lemma RatesAreProportions(names: seq<string>, rows: seq<Row>, i: nat)
    requires i < |names|
    ensures var s := StepOf(names, rows, i);
            && 0.0 <= s.conversion <= 1.0 && 0.0 <= s.dropOff <= 1.0
            && (i + 1 < |names| ==> StepOf(names, rows, i + 1).users <= s.users)
            && (i + 1 < |names| ==> StepOf(names, rows, i + 1).conversion <= s.conversion)
  {
    AtLeastAntitone(rows, 1, i + 1);
    AtLeastAntitone(rows, i + 1, i + 2);
    AtLeastAntitone(rows, i, i + 1);
    Proportion(Users(rows, i), Users(rows, 0));
    Proportion(Users(rows, i + 1), Users(rows, i));
    ShareAntitone(Users(rows, i + 1), Users(rows, i), Users(rows, 0));
    if i == 0 { Proportion(Users(rows, 1), Users(rows, 0)); }
    hide AtLeast;
  }

  lemma Proportion(a: nat, b: nat)
    requires a <= b
    ensures b > 0 ==> 0.0 <= a as real / b as real <= 1.0
  {
  }

  lemma ShareAntitone(a: nat, b: nat, c: nat)
    requires a <= b
    ensures c > 0 ==> a as real / c as real <= b as real / c as real
  {
  }

  /** A conversion rate is a share of the users of the first step. */
  lemma ConversionIsShare(rows: seq<Row>, i: nat)
    ensures ConversionRate(rows, i) * Users(rows, 0) as real == Users(rows, i) as real
  {
    AtLeastAntitone(rows, 1, i + 1);
    if i > 0 { AtLeastAntitone(rows, 1, i); AtLeastAntitone(rows, i, i + 1); }
    ShareTimes(Users(rows, i), Users(rows, 0));
    hide AtLeast;
  }

  /** What is left after a drop-off rate is the users of the next step. */
  lemma DropOffIsShare(rows: seq<Row>, i: nat, n: nat)
    requires i + 1 < n
    ensures (1.0 - DropOffRate(rows, i, n)) * Users(rows, i) as real == Users(rows, i + 1) as real
  {
    AtLeastAntitone(rows, i + 1, i + 2);
    ShareTimes(Users(rows, i + 1), Users(rows, i));
    hide AtLeast;
    var u, v := Users(rows, i), Users(rows, i + 1);
    if u > 0 {
      assert 1.0 - DropOffRate(rows, i, n) == v as real / u as real;
    }
  }

  lemma ShareTimes(a: nat, b: nat)
    ensures b > 0 ==> a as real / b as real * b as real == a as real
  {
  }

  lemma FourRows(a: Row, b: Row, c: Row, d: Row, level: int)
    ensures AtLeast([a, b, c, d], level)
            == (if a.level >= level then a.count else 0) + (if b.level >= level then b.count else 0)
               + (if c.level >= level then c.count else 0) + (if d.level >= level then d.count else 0)
  {
    AtLeastSnoc([], a, level);
    AtLeastSnoc([a], b, level);
    AtLeastSnoc([a, b], c, level);
    AtLeastSnoc([a, b, c], d, level);
    assert [] + [a] == [a] && [a] + [b] == [a, b] && [a, b] + [c] == [a, b, c] && [a, b, c] + [d] == [a, b, c, d];
  }

  /** Eight users reach the first of three steps, five of them the second, two all three; one reaches none. */
  lemma EightFiveTwo(names: seq<string>)
    requires |names| == 3
    ensures var rows := [Row(3, 2), Row(0, 1), Row(1, 3), Row(2, 3)];
            && StepOf(names, rows, 0) == FunnelStep(names[0], 8, 1.0, 0.375)
            && StepOf(names, rows, 1) == FunnelStep(names[1], 5, 0.625, 0.6)
            && StepOf(names, rows, 2) == FunnelStep(names[2], 2, 0.25, 0.0)
  {
    var a, b, c, d := Row(3, 2), Row(0, 1), Row(1, 3), Row(2, 3);
    FourRows(a, b, c, d, 1);
    FourRows(a, b, c, d, 2);
    FourRows(a, b, c, d, 3);
    hide AtLeast;
  }

  lemma AtLeastSnoc(rows: seq<Row>, row: Row, level: int)
    ensures AtLeast(rows + [row], level) == AtLeast(rows, level) + if row.level >= level then row.count else 0
    ensures AtLeast([], level) == 0
  {
    assert (rows + [row])[..|rows|] == rows;
  }

  /** The share that is left of `rate` when `dropOff` of it leaves. */
  function Left(rate: real, dropOff: real): real {
    rate * (1.0 - dropOff)
  }

  /** The product of 1 - DropOffRate over the steps before `i`. */
  function Survival(names: seq<string>, rows: seq<Row>, i: nat): real
    requires i <= |names|
  {
    if i == 0 then 1.0 else Left(Survival(names, rows, i - 1), StepOf(names, rows, i - 1).dropOff)
  }

  lemma Chain(a: nat, b: nat, c: nat)
    requires b > 0 && c > 0
    ensures (b as real / c as real) * (1.0 - (1.0 - a as real / b as real)) == a as real / c as real
  {
    var x, y, z := a as real, b as real, c as real;
    assert (y / z) * (x / y) == x / z by {
      assert (x / y) * y == x;
      assert ((y / z) * (x / y)) * z == ((y / z) * z) * (x / y);
      assert (x / z) * z == x;
    }
  }

  /** The two rates agree: who is still there at step `i` is who did not drop off before it. */
  lemma {:induction false} ConversionIsSurvival(names: seq<string>, rows: seq<Row>, i: nat)
    requires i < |names| && StepOf(names, rows, 0).users > 0
    ensures StepOf(names, rows, i).conversion == Survival(names, rows, i)
  {
    hide Left;
    if i > 0 {
      ConversionIsSurvival(names, rows, i - 1);
      RatesStep(names, rows, i);
    }
  }

  lemma RatesStep(names: seq<string>, rows: seq<Row>, i: nat)
    requires 0 < i < |names| && Users(rows, 0) > 0
    ensures Left(ConversionRate(rows, i - 1), DropOffRate(rows, i - 1, |names|)) == ConversionRate(rows, i)
  {
    hide AtLeast;
    AtLeastAntitone(rows, i - 1, i);
    var u, v, w := Users(rows, 0), Users(rows, i - 1), Users(rows, i);
    if v > 0 {
      Chain(w, v, u);
      if i > 1 {
        assert Users(rows, i - 2) >= v;
      } else {
        assert u as real / u as real == 1.0;
      }
    } else {
      assert ConversionRate(rows, i) == 0.0;
      assert i > 1 && ConversionRate(rows, i - 1) == 0.0;
    }
  }

  /** Nobody at the first step: every rate is zero. */
  lemma NoUsersNoRates(names: seq<string>, rows: seq<Row>, i: nat)
    requires i < |names| && StepOf(names, rows, 0).users == 0
    ensures StepOf(names, rows, i) == FunnelStep(names[i], 0, 0.0, 0.0)
  {
    AtLeastAntitone(rows, 1, i + 1);
    if i > 0 { AtLeastAntitone(rows, 1, i); }
    hide AtLeast;
  }
}
