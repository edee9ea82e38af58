/**
 * splitPath (internal/querying/analytics.go), which takes apart the event names that the path query joined with " -> ".
 * Its loop advances by one byte after a match, so two overlapping separators make a slice end before it starts.
 */
module PathSplit {
  import opened Common

  const SEP := " -> "

  /** The separator stands at position `i`. */
  predicate At(path: string, i: int) {
    0 <= i <= |path| - 4 && path[i..i + 4] == SEP
  }

  lemma AtChars(path: string, i: int)
    ensures At(path, i) <==> 0 <= i <= |path| - 4 && path[i] == ' ' && path[i + 1] == '-' && path[i + 2] == '>' && path[i + 3] == ' '
  {
    if 0 <= i <= |path| - 4 {
      var w := path[i..i + 4];
      assert w[0] == path[i] && w[1] == path[i + 1] && w[2] == path[i + 2] && w[3] == path[i + 3];
      assert w == [w[0], w[1], w[2], w[3]];
    }
  }

  lemma AtInSlice(path: string, lo: nat, hi: nat, i: int)
    requires lo <= hi <= |path|
    ensures At(path[lo..hi], i - lo) <==> At(path, i) && lo <= i && i + 4 <= hi
  {
    AtChars(path[lo..hi], i - lo);
    AtChars(path, i);
    hide At;
  }

  /** arrayStringConcat(names, ' -> '). */
  function Join(names: seq<string>): string {
    if names == [] then ""
    else if |names| == 1 then names[0]
    else Join(names[..|names| - 1]) + SEP + names[|names| - 1]
  }

  datatype Scan = Scan(parts: seq<string>, start: nat)

  /** One iteration of the loop; None where slicing panics. */
  function Advance(path: string, i: nat, scan: Scan): Option<Scan>
    requires i < |path|
  {
    if !At(path, i) then Some(scan)
    else if scan.start > i then None
    else Some(Scan(scan.parts + [path[scan.start..i]], i + 4))
  }

  /** The loop's variables before iteration `i`. */
  function Upto(path: string, i: nat): (r: Option<Scan>)
    requires i <= |path|
    ensures r.Some? ==> r.value.start <= |path|
  {
    if i == 0 then Some(Scan([], 0))
    else
      var before := Upto(path, i - 1);
      if before.None? then None else Advance(path, i - 1, before.value)
  }

  function Iterations(path: string): (n: nat)
    ensures n <= |path|
  {
    if |path| <= 3 then 0 else |path| - 3
  }

  /** What splitPath returns; None where it panics. */
  function Split(path: string): Option<seq<string>> {
    var scan := Upto(path, Iterations(path));
    if scan.None? then None else Some(scan.value.parts + [path[scan.value.start..]])
  }

  method SplitPath(path: string) returns (r: Option<seq<string>>)
    ensures r == Split(path)
  {
    var parts: seq<string> := [];
    var start := 0;
    var i := 0;
    while i < |path| - 3
      invariant 0 <= i <= Iterations(path)
      invariant 0 <= start <= |path|
      invariant Upto(path, i) == Some(Scan(parts, start))
    {
      if path[i..i + 4] == SEP {
        if start > i {
          UptoStaysNone(path, i + 1, Iterations(path));
          return None;
        }
        parts := parts + [path[start..i]];
        start := i + 4;
      }
      i := i + 1;
    }
    parts := parts + [path[start..]];
    return Some(parts);
  }

  lemma {:induction false} UptoStaysNone(path: string, i: nat, j: nat)
    requires i <= j <= |path| && Upto(path, i).None?
    ensures Upto(path, j).None?
  {
    if i < j {
      UptoStaysNone(path, i, j - 1);
    }
  }

  // ---------------------------------------------------------------- joins and their separators

  lemma JoinSnoc(names: seq<string>, x: string)
    ensures Join(names + [x]) == if names == [] then x else Join(names) + SEP + x
  {
    assert (names + [x])[..|names|] == names;
  }

  /** Where the separator after names[..k] stands in the join. */
  function Cut(names: seq<string>, k: nat): nat
    requires 0 < k < |names|
  {
    |Join(names[..k])|
  }

  lemma {:induction false} JoinAppend(a: seq<string>, b: seq<string>)
    requires a != [] && b != []
    ensures Join(a + b) == Join(a) + SEP + Join(b)
  {
    hide Join;
    var front, x := b[..|b| - 1], b[|b| - 1];
    assert b == front + [x] && a + b == (a + front) + [x];
    JoinSnoc(a + front, x);
    JoinSnoc(front, x);
    if front == [] {
      assert a + front == a;
    } else {
      JoinAppend(a, front);
      assert ((Join(a) + SEP + Join(front)) + SEP) + x == Join(a) + SEP + (Join(front) + SEP + x);
    }
  }

  lemma CutIsSeparator(names: seq<string>, k: nat)
    requires 0 < k < |names|
    ensures At(Join(names), Cut(names, k))
    ensures Join(names)[..Cut(names, k)] == Join(names[..k])
    ensures Join(names)[Cut(names, k) + 4..] == Join(names[k..])
  {
    assert names == names[..k] + names[k..];
    JoinAppend(names[..k], names[k..]);
    hide Join;
  }

  lemma NextCut(names: seq<string>, k: nat)
    requires 0 < k && k + 1 < |names|
    ensures Cut(names, k + 1) == Cut(names, k) + 4 + |names[k]|
  {
    assert names[..k + 1] == names[..k] + [names[k]];
    JoinSnoc(names[..k], names[k]);
  }

  lemma {:induction false} CutsAscend(names: seq<string>, j: nat, k: nat)
    requires 0 < j < k < |names|
    ensures Cut(names, j) + 4 <= Cut(names, k)
  {
    NextCut(names, k - 1);
    if j < k - 1 {
      CutsAscend(names, j, k - 1);
    }
  }

  ghost predicate IsCut(names: seq<string>, i: int) {
    exists k: nat :: 0 < k < |names| && Cut(names, k) == i
  }

  /** Separators occur in the join nowhere but between the names. */
  ghost predicate Exact(names: seq<string>) {
    forall i :: At(Join(names), i) ==> IsCut(names, i)
  }

  /** Occurrences of the separator overlap in one space or not at all. */
  lemma Overlap(path: string, i: int, j: int)
    requires At(path, i) && At(path, j) && i < j
    ensures j == i + 3 || j >= i + 4
  {
    AtChars(path, i);
    AtChars(path, j);
    hide At;
  }

  // ---------------------------------------------------------------- what the scan does

  /** Before iteration `i`: the parts are cut at exactly the separators that start before `i`. */
  ghost predicate Scanned(path: string, i: nat, scan: Scan) {
    var all := scan.parts + [path[if scan.start <= |path| then scan.start else |path|..]];
    && scan.start <= |path|
    && Join(all) == path
    && (scan.parts == [] ==> scan.start == 0)
    && (scan.parts != [] ==> Cut(all, |scan.parts|) == scan.start - 4 < i)
    && (forall j :: 0 <= j < i && At(path, j) ==> IsCut(all, j))
  }

  lemma {:induction false} PrefixCut(parts: seq<string>, x: string, tail: seq<string>, j: int)
    requires IsCut(parts + [x], j) && tail != []
    ensures IsCut(parts + tail, j)
  {
    var k: nat :| 0 < k < |parts + [x]| && Cut(parts + [x], k) == j;
    assert (parts + [x])[..k] == (parts + tail)[..k];
    assert Cut(parts + tail, k) == j;
  }

  /** Joins before and after the open part is cut at a separator. */
  lemma JoinCut(parts: seq<string>, x: string, y: string)
    ensures Join(parts + [x] + [y]) == Join(parts + [x + SEP + y])
    ensures Cut(parts + [x] + [y], |parts| + 1) == |Join(parts + [x + SEP + y])| - 4 - |y|
  {
    JoinSnoc(parts, x + SEP + y);
    JoinSnoc(parts, x);
    JoinSnoc(parts + [x], y);
    hide Join;
    assert (parts + [x] + [y])[..|parts| + 1] == parts + [x];
    if parts != [] {
      assert Join(parts) + SEP + (x + SEP + y) == (Join(parts) + SEP + x) + SEP + y;
    }
  }

  /** Cutting the open part at a separator. */
  lemma CutOpenPart(path: string, i: nat, scan: Scan)
    requires Scanned(path, i, scan) && At(path, i) && scan.start <= i
    ensures Scanned(path, i + 1, Scan(scan.parts + [path[scan.start..i]], i + 4))
  {
    var parts, x, y := scan.parts, path[scan.start..i], path[i + 4..];
    assert path[scan.start..] == x + SEP + y;
    JoinCut(parts, x, y);
    hide Join, Cut;
    var after := parts + [x] + [y];
    assert Cut(after, |parts| + 1) == i;
    forall j | 0 <= j < i + 1 && At(path, j) ensures IsCut(after, j) {
      if j < i {
        PrefixCut(parts, path[scan.start..], [x, y], j);
        assert parts + [x, y] == after;
      }
    }
  }

  /** The panic: the previous separator shares its last space with this one. */
  lemma PanicIsOverlap(path: string, i: nat, scan: Scan)
    requires Scanned(path, i, scan) && At(path, i) && scan.start > i
    ensures i >= 3 && At(path, i - 3)
  {
    var all := scan.parts + [path[scan.start..]];
    CutIsSeparator(all, |scan.parts|);
    Overlap(path, scan.start - 4, i);
  }

  ghost predicate Overlapping(path: string) {
    exists i :: At(path, i) && At(path, i + 3)
  }

  lemma AdvanceScans(path: string, i: nat, scan: Scan)
    requires i < |path| && Scanned(path, i, scan)
    ensures var next := Advance(path, i, scan);
            if next.Some? then Scanned(path, i + 1, next.value) else Overlapping(path)
  {
    hide Scanned, Overlapping;
    if !At(path, i) {
      ScannedStep(path, i, scan);
    } else if scan.start > i {
      PanicIsOverlap(path, i, scan);
      OverlapsAt(path, i - 3);
    } else {
      CutOpenPart(path, i, scan);
    }
  }

  lemma {:induction false} UptoScans(path: string, i: nat)
    requires i <= |path|
    ensures var scan := Upto(path, i);
            if scan.Some? then Scanned(path, i, scan.value) else Overlapping(path)
  {
    hide Scanned, Overlapping, Advance;
    if i == 0 {
      ScanBegins(path);
    } else {
      UptoScans(path, i - 1);
      if Upto(path, i - 1).Some? {
        AdvanceScans(path, i - 1, Upto(path, i - 1).value);
      }
    }
  }

  lemma ScanBegins(path: string)
    ensures Scanned(path, 0, Scan([], 0))
  {
    assert [] + [path[0..]] == [path];
  }

  lemma OverlapsAt(path: string, i: int)
    requires At(path, i) && At(path, i + 3)
    ensures Overlapping(path)
  {
  }

  lemma ScannedStep(path: string, i: nat, scan: Scan)
    requires Scanned(path, i, scan) && !At(path, i)
    ensures Scanned(path, i + 1, scan)
  {
  }

  lemma ExactNeverOverlaps(names: seq<string>)
    requires Exact(names)
    ensures !Overlapping(Join(names))
  {
    if Overlapping(Join(names)) {
      var i :| At(Join(names), i) && At(Join(names), i + 3);
      var j: nat :| 0 < j < |names| && Cut(names, j) == i;
      var k: nat :| 0 < k < |names| && Cut(names, k) == i + 3;
      if j < k { CutsAscend(names, j, k); } else if k < j { CutsAscend(names, k, j); }
    }
  }

  /** Rejoining the parts gives the path back, and no part hides a separator. */
  lemma SplitIsExact(path: string)
    ensures Split(path).Some? ==> Join(Split(path).value) == path && Exact(Split(path).value) && Split(path).value != []
    ensures Split(path).None? ==> Overlapping(path)
  {
    UptoScans(path, Iterations(path));
  }

  /** The last cut of one exact join is a cut of the other, and not past its last. */
  lemma LastCutShared(a: seq<string>, b: seq<string>)
    requires |a| > 1 && b != [] && Join(a) == Join(b) && Exact(b)
    ensures |b| > 1 && Cut(a, |a| - 1) <= Cut(b, |b| - 1)
  {
    CutIsSeparator(a, |a| - 1);
    hide Join, Cut, At;
    assert IsCut(b, Cut(a, |a| - 1));
    LastCutIsLast(b);
  }

  /** Exact joins of the same path have the same last cut, so the same last name and, before it, the same join. */
  lemma {:induction false} ExactUnique(a: seq<string>, b: seq<string>)
    requires a != [] && b != [] && Join(a) == Join(b) && Exact(a) && Exact(b)
    ensures a == b
  {
    hide Join, Cut, Exact;
    var m, n := |a| - 1, |b| - 1;
    if m > 0 { LastCutShared(a, b); }
    if n > 0 { LastCutShared(b, a); }
    assert a[..m] + [a[m]] == a && b[..n] + [b[n]] == b;
    if m > 0 {
      CutIsSeparator(a, m);
      CutIsSeparator(b, n);
      LastCut(a);
      LastCut(b);
      ExactPrefix(a);
      ExactPrefix(b);
      ExactUnique(a[..m], b[..n]);
    } else {
      assert a == [a[0]] && b == [b[0]];
      SingleJoin(a[0]);
      SingleJoin(b[0]);
    }
  }

  lemma SingleJoin(x: string)
    ensures Join([x]) == x
  {
  }

  lemma LastCut(names: seq<string>)
    requires |names| > 1
    ensures Join(names)[Cut(names, |names| - 1) + 4..] == names[|names| - 1]
  {
    CutIsSeparator(names, |names| - 1);
    assert names[|names| - 1..] == [names[|names| - 1]];
  }

  lemma LastCutIsLast(names: seq<string>)
    ensures forall i :: IsCut(names, i) ==> |names| > 1 && i <= Cut(names, |names| - 1)
  {
    forall i | IsCut(names, i) ensures |names| > 1 && i <= Cut(names, |names| - 1) {
      var k: nat :| 0 < k < |names| && Cut(names, k) == i;
      if k < |names| - 1 { CutsAscend(names, k, |names| - 1); }
    }
  }

  lemma ExactPrefix(names: seq<string>)
    requires |names| > 1 && Exact(names)
    ensures Exact(names[..|names| - 1])
  {
    var n := |names| - 1;
    var front := names[..n];
    CutIsSeparator(names, n);
    forall i | At(Join(front), i) ensures IsCut(front, i) {
      assert Join(names)[..Cut(names, n)][i..i + 4] == Join(names)[i..i + 4];
      assert At(Join(names), i);
      var k: nat :| 0 < k < |names| && Cut(names, k) == i;
      assert k < n;
      assert front[..k] == names[..k];
      assert Cut(front, k) == i;
    }
  }

  /** The whole of splitPath: the one way of writing the path as a join whose names hide no separator. */
  lemma SplitIff(path: string, parts: seq<string>)
    ensures Split(path) == Some(parts) <==> parts != [] && Join(parts) == path && Exact(parts)
  {
    SplitIsExact(path);
    hide Split;
    if parts != [] && Join(parts) == path && Exact(parts) {
      ExactNeverOverlaps(parts);
      ExactUnique(parts, Split(path).value);
    }
  }

  /** It panics exactly when two separators share a space, as in "a -> -> b". */
  lemma PanicsIff(path: string)
    ensures Split(path).None? <==> Overlapping(path)
  {
    SplitIsExact(path);
    if Split(path).Some? {
      ExactNeverOverlaps(Split(path).value);
    }
  }

  lemma JoinThree(x: string, y: string, z: string)
    ensures Join([x, y, z]) == x + SEP + y + SEP + z
  {
    JoinSnoc([], x);
    JoinSnoc([x], y);
    JoinSnoc([x, y], z);
    hide Join;
    assert [] + [x] == [x] && [x] + [y] == [x, y] && [x, y] + [z] == [x, y, z];
  }

  /** An event named "->" between two others: its path makes the loop panic. */
  lemma ArrowPanics()
    ensures Split(Join(["a", "->", "b"])).None?
  {
    JoinThree("a", "->", "b");
    hide Join, Split;
    var path := "a" + SEP + "->" + SEP + "b";
    assert path == "a -> -> -> b";
    AtChars(path, 1);
    AtChars(path, 4);
    hide At;
    OverlapsAt(path, 1);
    PanicsIff(path);
  }

  // ---------------------------------------------------------------- the condition on the names

  ghost predicate Contains(s: string) {
    exists i :: At(s, i)
  }

  /** A name with the spaces the join puts beside it. */
  function Padded(names: seq<string>, k: nat): string
    requires k < |names|
  {
    (if k > 0 then " " else "") + names[k] + (if k + 1 < |names| then " " else "")
  }

  ghost predicate Clean(names: seq<string>) {
    forall k :: 0 <= k < |names| ==> !Contains(Padded(names, k))
  }

  /** Where padded name `k` stands in the join. */
  function Lo(names: seq<string>, k: nat): nat
    requires k < |names|
  {
    if k > 0 then Cut(names, k) + 3 else 0
  }

  function Hi(names: seq<string>, k: nat): nat
    requires k < |names|
  {
    if k + 1 < |names| then Cut(names, k + 1) + 1 else |Join(names)|
  }

  /** Where name `k` itself stands. */
  lemma NamePlace(names: seq<string>, k: nat)
    requires k < |names|
    ensures var lo := if k > 0 then Cut(names, k) + 4 else 0;
            var hi := if k + 1 < |names| then Cut(names, k + 1) else |Join(names)|;
            lo <= hi <= |Join(names)| && Join(names)[lo..hi] == names[k]
  {
    var path := Join(names);
    hide Join;
    if k > 0 { CutIsSeparator(names, k); }
    if k + 1 < |names| {
      CutIsSeparator(names, k + 1);
      var front := names[..k + 1];
      var c := Cut(names, k + 1);
      assert front[k] == names[k] && (k > 0 ==> front[..k] == names[..k]);
      if k > 0 {
        LastCut(front);
        NextCut(names, k);
        assert Cut(front, k) == Cut(names, k);
        assert path[Cut(names, k) + 4..c] == path[..c][Cut(names, k) + 4..];
      } else {
        SingleJoin(names[0]);
        assert front == [names[0]];
      }
    } else if k > 0 {
      LastCut(names);
    } else {
      SingleJoin(names[0]);
      assert names == [names[0]];
    }
  }

  lemma Widen(path: string, lo: nat, hi: nat, left: nat, right: nat)
    requires left <= lo <= hi <= right <= |path|
    ensures path[left..right] == path[left..lo] + path[lo..hi] + path[hi..right]
  {
  }

  lemma PaddedPlace(names: seq<string>, k: nat)
    requires k < |names|
    ensures Lo(names, k) <= Hi(names, k) <= |Join(names)|
    ensures Join(names)[Lo(names, k)..Hi(names, k)] == Padded(names, k)
  {
    hide Join, Cut;
    var path := Join(names);
    NamePlace(names, k);
    var lo := if k > 0 then Cut(names, k) + 4 else 0;
    var hi := if k + 1 < |names| then Cut(names, k + 1) else |path|;
    if k > 0 {
      CutIsSeparator(names, k);
      AtChars(path, lo - 4);
      assert path[lo - 1..lo] == " ";
    }
    if k + 1 < |names| {
      CutIsSeparator(names, k + 1);
      AtChars(path, hi);
      assert path[hi..hi + 1] == " ";
    }
    Widen(path, lo, hi, Lo(names, k), Hi(names, k));
  }

  /** A separator that is not a cut lies inside one padded name. */
  lemma StrayInPadded(names: seq<string>, i: int, k: nat)
    requires k < |names| && At(Join(names), i) && !IsCut(names, i)
    requires (k > 0 ==> Cut(names, k) < i) && (k + 1 < |names| ==> i < Cut(names, k + 1))
    ensures At(Padded(names, k), i - Lo(names, k))
  {
    hide Join, Padded, Cut, IsCut, At;
    var path := Join(names);
    PaddedPlace(names, k);
    if k > 0 {
      CutIsSeparator(names, k);
      Overlap(path, Cut(names, k), i);
    }
    AtFits(path, i);
    if k + 1 < |names| {
      CutIsSeparator(names, k + 1);
      Overlap(path, i, Cut(names, k + 1));
    }
    AtInSlice(path, Lo(names, k), Hi(names, k), i);
  }

  lemma AtFits(path: string, i: int)
    requires At(path, i)
    ensures 0 <= i <= |path| - 4
  {
  }

  /** The name at whose right or inside position `i` lies. */
  lemma {:induction false} NameAt(names: seq<string>, i: int, n: nat) returns (k: nat)
    requires 0 < n <= |names| && !IsCut(names, i) && (n < |names| ==> i < Cut(names, n))
    ensures k < |names| && (k > 0 ==> Cut(names, k) < i) && (k + 1 < |names| ==> i < Cut(names, k + 1))
  {
    k := n - 1;
    if k > 0 && i < Cut(names, k) {
      k := NameAt(names, i, n - 1);
    }
  }

  /** A separator inside a padded name is not a cut. */
  lemma PaddedIsNoCut(names: seq<string>, k: nat, o: int)
    requires k < |names| && At(Padded(names, k), o)
    ensures At(Join(names), Lo(names, k) + o) && !IsCut(names, Lo(names, k) + o)
  {
    hide Join, Padded, Cut, At, Lo, Hi;
    PaddedPlace(names, k);
    AtInSlice(Join(names), Lo(names, k), Hi(names, k), Lo(names, k) + o);
    forall j: nat | 0 < j < |names| ensures Cut(names, j) != Lo(names, k) + o {
      CutSides(names, j, k);
      AtFits(Padded(names, k), o);
    }
  }

  lemma CutSides(names: seq<string>, j: nat, k: nat)
    requires 0 < j < |names| && k < |names|
    ensures j <= k ==> Cut(names, j) < Lo(names, k)
    ensures j > k ==> Cut(names, j) + 1 >= Hi(names, k)
  {
    if j < k { CutsAscend(names, j, k); }
    if k + 1 < j { CutsAscend(names, k + 1, j); }
  }

  lemma ExactIffClean(names: seq<string>)
    requires names != []
    ensures Exact(names) <==> Clean(names)
  {
    if Clean(names) {
      forall i | At(Join(names), i) ensures IsCut(names, i) {
        if !IsCut(names, i) {
          var k := NameAt(names, i, |names|);
          StrayInPadded(names, i, k);
          assert Contains(Padded(names, k));
        }
      }
    } else {
      var k :| 0 <= k < |names| && Contains(Padded(names, k));
      var o :| At(Padded(names, k), o);
      PaddedIsNoCut(names, k, o);
    }
  }

  /** splitPath undoes the join, without a panic, if and only if no name contains " -> " with its neighbouring spaces. */
  lemma RoundTripIff(names: seq<string>)
    requires names != []
    ensures Split(Join(names)) == Some(names) <==> Clean(names)
  {
    ExactIffClean(names);
    SplitIff(Join(names), names);
  }

  lemma ContainsAngle(s: string)
    ensures Contains(s) ==> '>' in s
  {
    if Contains(s) {
      var i :| At(s, i);
      AtChars(s, i);
    }
  }

  /** So it does for names without '>'. */
  lemma RoundTrip(names: seq<string>)
    requires names != [] && forall k :: 0 <= k < |names| ==> '>' !in names[k]
    ensures Split(Join(names)) == Some(names)
  {
    hide Split, Join, Contains;
    forall k | 0 <= k < |names| ensures !Contains(Padded(names, k)) {
      ContainsAngle(Padded(names, k));
    }
    RoundTripIff(names);
  }
}
