/** Notions shared by several components. */
module Common {

  datatype Option<+T> = None | Some(value: T)

  function Min(a: int, b: int): int {
    if a <= b then a else b
  }

  function Max(a: int, b: int): int {
    if a <= b then b else a
  }

  /** The first `n` elements, or all of them when there are fewer. */
  function Take<T>(s: seq<T>, n: nat): seq<T> {
    if n <= |s| then s[..n] else s
  }

  ghost predicate Distinct<T(!new)>(s: seq<T>) {
    forall i, j :: 0 <= i < j < |s| ==> s[i] != s[j]
  }

  /** Drops every occurrence of `x`, keeping the order of the rest. */
  function Without<T(==)>(s: seq<T>, x: T): seq<T> {
    if s == [] then []
    else
      var r := Without(s[..|s| - 1], x);
      if s[|s| - 1] == x then r else r + [s[|s| - 1]]
  }

  lemma WithoutSnoc<T>(s: seq<T>, y: T, x: T)
    ensures Without(s + [y], x) == if y == x then Without(s, x) else Without(s, x) + [y]
  {
    assert (s + [y])[..|s|] == s;
  }

  lemma {:induction false} WithoutMembers<T(!new)>(s: seq<T>, x: T)
    ensures forall y :: y in Without(s, x) <==> y in s && y != x
  {
    if s != [] {
      WithoutMembers(s[..|s| - 1], x);
      assert s == s[..|s| - 1] + [s[|s| - 1]];
    }
  }

  /** Keeps the first occurrence of every element. */
  function Dedup<T(==)>(s: seq<T>): seq<T> {
    if s == [] then []
    else
      var r := Dedup(s[..|s| - 1]);
      if s[|s| - 1] in r then r else r + [s[|s| - 1]]
  }

  lemma DedupSnoc<T>(s: seq<T>, y: T)
    ensures Dedup(s + [y]) == if y in Dedup(s) then Dedup(s) else Dedup(s) + [y]
  {
    assert (s + [y])[..|s|] == s;
  }

  lemma {:induction false} DedupCons<T(!new)>(x: T, s: seq<T>)
    ensures Dedup([x] + s) == [x] + Without(Dedup(s), x)
  {
    if s == [] {
      DedupConsNil(x);
    } else {
      hide Dedup, Without;
      var front, last := s[..|s| - 1], s[|s| - 1];
      DedupCons(x, front);
      DedupConsStep(x, front, last);
      assert front + [last] == s;
    }
  }

  lemma DedupConsNil<T(!new)>(x: T)
    ensures Dedup([x] + []) == [x] + Without(Dedup([]), x)
  {
    assert [x] + [] == [] + [x];
    DedupSnoc([], x);
  }

  lemma DedupConsStep<T(!new)>(x: T, front: seq<T>, last: T)
    requires Dedup([x] + front) == [x] + Without(Dedup(front), x)
    ensures Dedup([x] + (front + [last])) == [x] + Without(Dedup(front + [last]), x)
  {
    hide Dedup, Without;
    var w := Without(Dedup(front), x);
    WithoutMembers(Dedup(front), x);
    assert [x] + (front + [last]) == ([x] + front) + [last];
    DedupSnoc([x] + front, last);
    DedupSnoc(front, last);
    WithoutSnoc(Dedup(front), last, x);
    assert ([x] + w) + [last] == [x] + (w + [last]);
  }

  lemma {:induction false} DedupMembers<T(!new)>(s: seq<T>)
    ensures forall y :: y in Dedup(s) <==> y in s
  {
    if s != [] {
      DedupMembers(s[..|s| - 1]);
      assert s == s[..|s| - 1] + [s[|s| - 1]];
    }
  }

  lemma {:induction false} DedupDistinct<T(!new)>(s: seq<T>)
    ensures Distinct(Dedup(s))
  {
    if s != [] {
      DedupDistinct(s[..|s| - 1]);
    }
  }

  /** Removing an element before or after duplicates are dropped gives the same list. */
  lemma {:induction false} DedupWithout<T(!new)>(s: seq<T>, x: T)
    ensures Dedup(Without(s, x)) == Without(Dedup(s), x)
  {
    if s != [] {
      var front, last := s[..|s| - 1], s[|s| - 1];
      DedupWithout(front, x);
      WithoutMembers(Dedup(front), x);
      DedupSnoc(Without(front, x), last);
      WithoutSnoc(Dedup(front), last, x);
    }
  }

  lemma {:induction false} WithoutDistinct<T(!new)>(s: seq<T>, x: T)
    requires Distinct(s)
    ensures Distinct(Without(s, x))
  {
    if s != [] {
      var front, last := s[..|s| - 1], s[|s| - 1];
      WithoutDistinct(front, x);
      WithoutMembers(front, x);
      assert last !in front by { LastIsNew(s); }
    }
  }

  lemma LastIsNew<T(!new)>(s: seq<T>)
    requires Distinct(s) && s != []
    ensures s[|s| - 1] !in s[..|s| - 1]
  {
  }

  lemma {:induction false} WithoutAppend<T(!new)>(s: seq<T>, t: seq<T>, x: T)
    ensures Without(s + t, x) == Without(s, x) + Without(t, x)
  {
    if t == [] {
      assert s + t == s;
    } else {
      var front := t[..|t| - 1];
      assert (s + t)[..|s + t| - 1] == s + front;
      WithoutAppend(s, front, x);
    }
  }

  lemma {:induction false} WithoutAbsent<T(!new)>(s: seq<T>, x: T)
    requires x !in s
    ensures Without(s, x) == s
  {
    if s != [] {
      WithoutAbsent(s[..|s| - 1], x);
    }
  }

  /** Dropping `x` from a duplicate-free list and cutting at `n` needs only the first `n + 1` elements. */
  lemma TakeWithout<T(!new)>(s: seq<T>, x: T, n: nat)
    requires Distinct(s)
    ensures Take(Without(s, x), n) == Take(Without(Take(s, n + 1), x), n)
  {
    if n + 1 < |s| {
      var a, b := s[..n + 1], s[n + 1..];
      assert Without(s, x) == Without(a, x) + Without(b, x) by {
        assert s == a + b;
        WithoutAppend(a, b, x);
      }
      WithoutLength(a, x);
    } else {
      assert Take(s, n + 1) == s;
    }
  }

  lemma {:induction false} WithoutLength<T(!new)>(s: seq<T>, x: T)
    requires Distinct(s)
    ensures |Without(s, x)| == if x in s then |s| - 1 else |s|
  {
    if s != [] {
      var front := s[..|s| - 1];
      WithoutLength(front, x);
      assert s == front + [s[|s| - 1]];
    }
  }

  ghost function Elems<T>(s: seq<T>): set<T> {
    set x | x in s
  }

  lemma {:induction false} DistinctCardinality<T(!new)>(s: seq<T>)
    requires Distinct(s)
    ensures |Elems(s)| == |s|
  {
    if s == [] {
    } else {
      var front := s[..|s| - 1];
      DistinctCardinality(front);
      assert s == front + [s[|s| - 1]];
      assert Elems(s) == Elems(front) + {s[|s| - 1]};
    }
  }

  lemma {:induction false} HeadWithout<T(!new)>(all: seq<T>, x: T)
    requires Distinct(all) && all != []
    ensures all[0] == x ==> Without(all, x) == all[1..]
    ensures all[0] != x ==> Without(all, x) != [] && Without(all, x)[0] == all[0]
  {
    var front, last := all[..|all| - 1], all[|all| - 1];
    if front == [] {
      assert Without(front, x) == [];
    } else {
      HeadWithout(front, x);
      assert all[1..] == front[1..] + [last];
    }
  }

  lemma {:induction false} DedupPrefix<T(!new)>(s: seq<T>, k: nat)
    requires k <= |s|
    ensures |Dedup(s[..k])| <= |Dedup(s)| && Dedup(s[..k]) == Dedup(s)[..|Dedup(s[..k])|]
  {
    if k < |s| {
      var front := s[..|s| - 1];
      DedupPrefix(front, k);
      assert front[..k] == s[..k];
    } else {
      assert s[..k] == s;
    }
  }

  lemma DedupIncomplete<T(!new)>(lap: seq<T>, k: nat)
    requires k <= |lap| && |Dedup(lap[..k])| < |Dedup(lap)|
    ensures k < |lap|
  {
    assert lap[..|lap|] == lap;
  }

  lemma DedupStep<T(!new)>(lap: seq<T>, k: nat)
    requires k < |lap|
    ensures Dedup(lap[..k + 1]) == if lap[k] in Dedup(lap[..k]) then Dedup(lap[..k]) else Dedup(lap[..k]) + [lap[k]]
  {
    assert lap[..k + 1] == lap[..k] + [lap[k]];
    DedupSnoc(lap[..k], lap[k]);
  }

  lemma TakeExactly<T>(s: seq<T>, n: nat)
    requires n <= |s|
    ensures Take(s, n) == s[..n]
  {
  }

  lemma DedupKeepsHead<T(!new)>(s: seq<T>)
    requires s != []
    ensures Dedup(s) != [] && Dedup(s)[0] == s[0]
  {
    if |s| > 1 {
      DedupKeepsHead(s[..|s| - 1]);
    }
  }

  lemma {:induction false} SubsetSize<T>(a: set<T>, b: set<T>)
    requires a <= b
    ensures |a| <= |b|
  {
    assert b == a + (b - a);
    assert |b| == |a| + |b - a|;
  }

  function Digit(d: nat): char
    requires d < 10
  {
    ['0', '1', '2', '3', '4', '5', '6', '7', '8', '9'][d]
  }

  /** `%d` of a natural number. */
  function Decimal(n: nat): (s: string)
    ensures |s| >= 1 && ':' !in s
  {
    if n < 10 then [Digit(n)] else Decimal(n / 10) + [Digit(n % 10)]
  }

  lemma DigitInjective(c: nat, d: nat)
    requires c < 10 && d < 10 && Digit(c) == Digit(d)
    ensures c == d
  {
  }

  lemma DecimalSplit(n: nat)
    ensures var s := Decimal(n);
            && s[|s| - 1] == Digit(n % 10)
            && (n < 10 ==> |s| == 1)
            && (n >= 10 ==> |s| > 1 && s[..|s| - 1] == Decimal(n / 10))
  {
    hide Digit;
  }

  lemma {:induction false} DecimalInjective(i: nat, j: nat)
    requires Decimal(i) == Decimal(j)
    ensures i == j
  {
    DecimalSplit(i);
    DecimalSplit(j);
    hide Decimal, Digit;
    DigitInjective(i % 10, j % 10);
    if i >= 10 {
      DecimalInjective(i / 10, j / 10);
    }
  }

  /** The number that a string of decimal digits stands for. */
  function Value(s: string): int {
    if s == [] then 0 else 10 * Value(s[..|s| - 1]) + (s[|s| - 1] as int - '0' as int)
  }

  lemma {:induction false} DecimalValue(n: nat)
    ensures Value(Decimal(n)) == n && (forall k :: 0 <= k < |Decimal(n)| ==> '0' <= Decimal(n)[k] <= '9')
    ensures |Decimal(n)| > 1 ==> Decimal(n)[0] != '0'
  {
    if n >= 10 {
      DecimalValue(n / 10);
      var s := Decimal(n);
      assert s[..|s| - 1] == Decimal(n / 10);
      if |Decimal(n / 10)| == 1 { OneDigit(n / 10); }
    } else {
      assert Decimal(n)[..0] == [];
    }
  }

  lemma OneDigit(n: nat)
    requires |Decimal(n)| == 1 && n > 0
    ensures Decimal(n)[0] != '0'
  {
  }

  /** `%d` of an integer. */
  function FormatInt(n: int): (s: string)
    ensures |s| >= 1
  {
    if n < 0 then "-" + Decimal(-n) else Decimal(n)
  }

  lemma {:induction false} DecimalHasNoSign(n: nat)
    ensures '-' !in Decimal(n)
  {
    if n >= 10 {
      DecimalHasNoSign(n / 10);
    }
  }

  lemma FormatIntInjective(a: int, b: int)
    requires FormatInt(a) == FormatInt(b)
    ensures a == b
  {
    DecimalHasNoSign(if a < 0 then -a else a);
    DecimalHasNoSign(if b < 0 then -b else b);
    assert FormatInt(a)[0] == FormatInt(b)[0];
    assert a < 0 ==> FormatInt(a)[0] == '-' && FormatInt(a)[1..] == Decimal(-a);
    assert b < 0 ==> FormatInt(b)[0] == '-' && FormatInt(b)[1..] == Decimal(-b);
    assert a >= 0 ==> FormatInt(a)[0] in Decimal(a);
    assert b >= 0 ==> FormatInt(b)[0] in Decimal(b);
    DecimalInjective(if a < 0 then -a else a, if b < 0 then -b else b);
  }
}
