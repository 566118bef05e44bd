/** What the list algorithms of lib/kernel/list.c compute, on sequences: runs, stable merging, the
    natural merge sort, and ordered insertion. LESS is any strict weak order on the elements. */
module ListSpec {

  /** LESS is a strict weak order on DOM: irreflexive, transitive, and incomparability is transitive. */
  ghost predicate StrictWeak<T>(less: (T, T) -> bool, dom: set<T>) {
    && (forall x :: x in dom ==> !less(x, x))
    && (forall x, y, z :: x in dom && y in dom && z in dom && less(x, y) && less(y, z) ==> less(x, z))
    && (forall x, y, z :: x in dom && y in dom && z in dom && !less(x, y) && !less(y, z) ==> !less(x, z))
  }

  ghost predicate Within<T>(x: seq<T>, dom: set<T>) {
    forall e :: e in x ==> e in dom
  }

  /** No element is less than one before it. */
  ghost predicate Sorted<T>(less: (T, T) -> bool, x: seq<T>) {
    forall i, j :: 0 <= i < j < |x| ==> !less(x[j], x[i])
  }

  /** The elements of X equivalent to G, in order. */
  ghost function Class<T>(less: (T, T) -> bool, x: seq<T>, g: T): seq<T> {
    if x == [] then []
    else if !less(x[0], g) && !less(g, x[0]) then [x[0]] + Class(less, x[1..], g)
    else Class(less, x[1..], g)
  }

  /** Y is a stable rearrangement of X: equivalent elements keep their order. */
  ghost predicate StableFor<T>(less: (T, T) -> bool, x: seq<T>, y: seq<T>, dom: set<T>) {
    forall g :: g in dom ==> Class(less, y, g) == Class(less, x, g)
  }

  // ---------- merging ----------

  function Merge<T>(less: (T, T) -> bool, a: seq<T>, b: seq<T>): seq<T>
    decreases |a| + |b|
  {
    if |a| == 0 then b
    else if |b| == 0 then a
    else if less(b[0], a[0]) then [b[0]] + Merge(less, a, b[1..])
    else [a[0]] + Merge(less, a[1..], b)
  }

  lemma {:induction false} MergeItems<T>(less: (T, T) -> bool, a: seq<T>, b: seq<T>)
    ensures |Merge(less, a, b)| == |a| + |b|
    ensures multiset(Merge(less, a, b)) == multiset(a) + multiset(b)
    decreases |a| + |b|
  {
    if a != [] && b != [] {
      if less(b[0], a[0]) {
        MergeItems(less, a, b[1..]);
        assert b == [b[0]] + b[1..];
      } else {
        MergeItems(less, a[1..], b);
        assert a == [a[0]] + a[1..];
      }
    }
  }

  /** The head is not greater than anything in the tail. */
  lemma SortedCons<T>(less: (T, T) -> bool, h: T, t: seq<T>)
    requires Sorted(less, t) && forall e :: e in t ==> !less(e, h)
    ensures Sorted(less, [h] + t)
  {
  }

  lemma SortedTail<T>(less: (T, T) -> bool, x: seq<T>)
    requires Sorted(less, x) && x != []
    ensures Sorted(less, x[1..]) && forall e :: e in x[1..] ==> !less(e, x[0])
  {
    forall i, j | 0 <= i < j < |x[1..]| ensures !less(x[1..][j], x[1..][i]) {
      assert x[1..][j] == x[j + 1] && x[1..][i] == x[i + 1];
    }
  }

  lemma {:induction false} MergeSorted<T>(less: (T, T) -> bool, a: seq<T>, b: seq<T>, dom: set<T>)
    requires StrictWeak(less, dom) && Within(a, dom) && Within(b, dom)
    requires Sorted(less, a) && Sorted(less, b)
    ensures Sorted(less, Merge(less, a, b))
    decreases |a| + |b|
  {
    hide Sorted;
    if a != [] && b != [] {
      SortedTail(less, a);
      SortedTail(less, b);
      if less(b[0], a[0]) {
        MergeSorted(less, a, b[1..], dom);
        MergeItems(less, a, b[1..]);
        var m := Merge(less, a, b[1..]);
        forall e | e in m ensures !less(e, b[0]) {
          assert e in multiset(m);
          assert e in a || e in b[1..];
          NotBelow(less, e, a, b[0], dom);
        }
        SortedCons(less, b[0], m);
      } else {
        MergeSorted(less, a[1..], b, dom);
        MergeItems(less, a[1..], b);
        var m := Merge(less, a[1..], b);
        forall e | e in m ensures !less(e, a[0]) {
          assert e in multiset(m);
          assert e in a[1..] || e in b;
          NotBelowOther(less, e, b, a[0], dom);
        }
        SortedCons(less, a[0], m);
      }
    }
  }

  lemma NotBelow<T>(less: (T, T) -> bool, e: T, a: seq<T>, h: T, dom: set<T>)
    requires StrictWeak(less, dom) && Within(a, dom) && h in dom
    requires a != [] && less(h, a[0]) && forall d :: d in a[1..] ==> !less(d, a[0])
    ensures e in a ==> !less(e, h)
  {
    assert a == [a[0]] + a[1..];
    assert e in a ==> e in dom && !less(e, a[0]);
  }

  lemma NotBelowOther<T>(less: (T, T) -> bool, e: T, b: seq<T>, h: T, dom: set<T>)
    requires StrictWeak(less, dom) && Within(b, dom) && h in dom
    requires b != [] && !less(b[0], h) && forall d :: d in b[1..] ==> !less(d, b[0])
    ensures e in b ==> !less(e, h)
  {
    assert b == [b[0]] + b[1..];
    assert e in b ==> e in dom && !less(e, b[0]);
  }

  lemma {:induction false} ClassConcat<T>(less: (T, T) -> bool, x: seq<T>, y: seq<T>, g: T)
    ensures Class(less, x + y, g) == Class(less, x, g) + Class(less, y, g)
  {
    if x == [] {
      assert x + y == y;
    } else {
      assert (x + y)[1..] == x[1..] + y;
      ClassConcat(less, x[1..], y, g);
    }
  }

  lemma {:induction false} ClassEmpty<T>(less: (T, T) -> bool, x: seq<T>, g: T)
    requires forall e :: e in x ==> less(g, e)
    ensures Class(less, x, g) == []
  {
    if x != [] {
      assert x[0] in x;
      ClassEmpty(less, x[1..], g);
    }
  }

  /** Merging sorted runs is stable: A's elements stay before equivalent ones of B. */
  lemma {:induction false} MergeStable<T>(less: (T, T) -> bool, a: seq<T>, b: seq<T>, g: T, dom: set<T>)
    requires StrictWeak(less, dom) && Within(a, dom) && Within(b, dom) && g in dom
    requires Sorted(less, a)
    ensures Class(less, Merge(less, a, b), g) == Class(less, a, g) + Class(less, b, g)
    decreases |a| + |b|
  {
    hide Sorted;
    if a != [] && b != [] {
      if less(b[0], a[0]) {
        MergeStable(less, a, b[1..], g, dom);
        TakeFromB(less, a, b, Merge(less, a, b[1..]), g, dom);
      } else {
        SortedTail(less, a);
        MergeStable(less, a[1..], b, g, dom);
        ClassCons(less, a[0], Merge(less, a[1..], b), g);
        ClassCons(less, a[0], a[1..], g);
        assert a == [a[0]] + a[1..];
      }
    }
  }

  lemma ClassCons<T>(less: (T, T) -> bool, h: T, t: seq<T>, g: T)
    ensures Class(less, [h] + t, g) == (if !less(h, g) && !less(g, h) then [h] else []) + Class(less, t, g)
  {
    assert ([h] + t)[1..] == t;
  }

  lemma TakeFromB<T>(less: (T, T) -> bool, a: seq<T>, b: seq<T>, m: seq<T>, g: T, dom: set<T>)
    requires StrictWeak(less, dom) && Within(a, dom) && Within(b, dom) && g in dom
    requires Sorted(less, a) && a != [] && b != [] && less(b[0], a[0])
    requires Class(less, m, g) == Class(less, a, g) + Class(less, b[1..], g)
    ensures Class(less, [b[0]] + m, g) == Class(less, a, g) + Class(less, b, g)
  {
    hide Sorted, Class;
    ClassCons(less, b[0], m, g);
    ClassCons(less, b[0], b[1..], g);
    assert b == [b[0]] + b[1..];
    if !less(b[0], g) && !less(g, b[0]) {
      SortedTail(less, a);
      assert less(g, a[0]);
      AllAbove(less, a, g, dom);
      ClassEmpty(less, a, g);
    }
  }

  lemma AllAbove<T>(less: (T, T) -> bool, a: seq<T>, g: T, dom: set<T>)
    requires StrictWeak(less, dom) && Within(a, dom) && g in dom
    requires a != [] && less(g, a[0]) && forall d :: d in a[1..] ==> !less(d, a[0])
    ensures forall e :: e in a ==> less(g, e)
  {
    assert a == [a[0]] + a[1..];
    forall e | e in a ensures less(g, e) {
      assert e == a[0] || e in a[1..];
    }
  }

  // ---------- runs ----------

  /** The exclusive end of the nondecreasing run that starts at I. */
  function RunEnd<T>(less: (T, T) -> bool, x: seq<T>, i: nat): (r: nat)
    requires i < |x|
    ensures i < r <= |x|
    ensures r < |x| ==> less(x[r], x[r - 1])
    ensures forall k :: i < k < r ==> !less(x[k], x[k - 1])
    decreases |x| - i
  {
    if i + 1 == |x| || less(x[i + 1], x[i]) then i + 1 else RunEnd(less, x, i + 1)
  }

  lemma RunEndIs<T>(less: (T, T) -> bool, x: seq<T>, i: nat, r: nat)
    requires i < r <= |x|
    requires r < |x| ==> less(x[r], x[r - 1])
    requires forall k :: i < k < r ==> !less(x[k], x[k - 1])
    ensures RunEnd(less, x, i) == r
    decreases |x| - i
  {
    if i + 1 < r {
      assert !less(x[i + 1], x[i + 1 - 1]);
      RunEndIs(less, x, i + 1, r);
    }
  }

  /** A run does not depend on what stands before it. */
  lemma RunEndShift<T>(less: (T, T) -> bool, x: seq<T>, i: nat)
    requires i < |x|
    ensures RunEnd(less, x[i..], 0) + i == RunEnd(less, x, i)
  {
    var r := RunEnd(less, x, i);
    var y := x[i..];
    hide RunEnd;
    forall k | 0 < k < r - i ensures !less(y[k], y[k - 1]) {
      assert !less(x[i + k], x[i + k - 1]);
    }
    RunEndIs(less, y, 0, r - i);
  }

  /** Adjacent order is enough for sortedness. */
  lemma {:induction false} AdjacentSorted<T>(less: (T, T) -> bool, x: seq<T>, dom: set<T>)
    requires StrictWeak(less, dom) && Within(x, dom)
    requires forall k :: 0 < k < |x| ==> !less(x[k], x[k - 1])
    ensures Sorted(less, x)
    decreases |x|
  {
    hide StrictWeak, Sorted;
    if |x| <= 1 {
      ShortSorted(less, x);
    } else {
      var t := x[1..];
      forall k | 0 < k < |t| ensures !less(t[k], t[k - 1]) {
        assert !less(x[k + 1], x[k + 1 - 1]);
      }
      AdjacentSorted(less, t, dom);
      forall e | e in t ensures !less(e, x[0]) {
        HeadBelow(less, x, e, dom);
      }
      SortedCons(less, x[0], t);
      assert x == [x[0]] + t;
    }
  }

  lemma ShortSorted<T>(less: (T, T) -> bool, x: seq<T>)
    requires |x| <= 1
    ensures Sorted(less, x)
  {
  }

  lemma HeadBelow<T>(less: (T, T) -> bool, x: seq<T>, e: T, dom: set<T>)
    requires StrictWeak(less, dom) && Within(x, dom) && |x| > 1
    requires Sorted(less, x[1..]) && !less(x[1], x[1 - 1]) && e in x[1..]
    ensures !less(e, x[0])
  {
    var t := x[1..];
    assert t[0] == x[1];
    var j :| 0 <= j < |t| && t[j] == e;
    assert e in dom && x[0] in dom && x[1] in dom by { assert x[0] in x && x[1] in x && x[j + 1] in x; }
    if j > 0 {
      assert !less(t[j], t[0]);
    }
  }

  lemma RunSorted<T>(less: (T, T) -> bool, x: seq<T>, i: nat, dom: set<T>)
    requires StrictWeak(less, dom) && Within(x, dom) && i < |x|
    ensures Sorted(less, x[i..RunEnd(less, x, i)]) && Within(x[i..RunEnd(less, x, i)], dom)
  {
    var y := x[i..RunEnd(less, x, i)];
    forall k | 0 < k < |y| ensures !less(y[k], y[k - 1]) {
      assert !less(x[i + k], x[i + k - 1]);
    }
    AdjacentSorted(less, y, dom);
  }

  ghost function Descents<T>(less: (T, T) -> bool, x: seq<T>): nat {
    if |x| <= 1 then 0 else (if less(x[1], x[0]) then 1 else 0) + Descents(less, x[1..])
  }

  ghost function Runs<T>(less: (T, T) -> bool, x: seq<T>): nat {
    if x == [] then 0 else 1 + Descents(less, x)
  }

  lemma {:induction false} DescentsConcat<T>(less: (T, T) -> bool, x: seq<T>, y: seq<T>)
    requires x != [] && y != []
    ensures Descents(less, x + y)
      == Descents(less, x) + Descents(less, y) + (if less(y[0], x[|x| - 1]) then 1 else 0)
    decreases |x|
  {
    assert (x + y)[1..] == x[1..] + y;
    if |x| > 1 {
      DescentsConcat(less, x[1..], y);
      assert (x + y)[1] == x[1];
    }
  }

  lemma RunsConcat<T>(less: (T, T) -> bool, x: seq<T>, y: seq<T>)
    ensures Runs(less, x + y) <= Runs(less, x) + Runs(less, y)
  {
    if x == [] {
      assert x + y == y;
    } else if y == [] {
      assert x + y == x;
    } else {
      DescentsConcat(less, x, y);
    }
  }

  lemma {:induction false} NoDescents<T>(less: (T, T) -> bool, x: seq<T>)
    requires forall k :: 0 < k < |x| ==> !less(x[k], x[k - 1])
    ensures Descents(less, x) == 0
    decreases |x|
  {
    if |x| > 1 {
      assert !less(x[1], x[1 - 1]);
      assert forall k {:trigger x[1..][k]} :: 0 < k < |x[1..]| ==> x[1..][k] == x[k + 1] && x[1..][k - 1] == x[k + 1 - 1];
      NoDescents(less, x[1..]);
    }
  }

  lemma SortedOneRun<T>(less: (T, T) -> bool, x: seq<T>)
    requires Sorted(less, x) && x != []
    ensures Runs(less, x) == 1
  {
    NoDescents(less, x);
  }

  /** Dropping the first run leaves one run fewer. */
  lemma FirstRunOff<T>(less: (T, T) -> bool, x: seq<T>)
    requires x != []
    ensures Runs(less, x) == 1 + Runs(less, x[RunEnd(less, x, 0)..])
  {
    var e := RunEnd(less, x, 0);
    NoDescents(less, x[..e]);
    if e == |x| {
      assert x[..e] == x;
    } else {
      assert x == x[..e] + x[e..];
      DescentsConcat(less, x[..e], x[e..]);
    }
  }

  // ---------- one pass over the list, and the sort ----------

  /** Merges adjacent pairs of runs from left to right. */
  function Pass<T>(less: (T, T) -> bool, x: seq<T>): seq<T>
    decreases |x|
  {
    if |x| == 0 then [] else
    var e := RunEnd(less, x, 0);
    if e == |x| then x else
    var f := RunEnd(less, x, e);
    Merge(less, x[..e], x[e..f]) + Pass(less, x[f..])
  }

  /** The number of runs a pass outputs. */
  function PassCount<T>(less: (T, T) -> bool, x: seq<T>): nat
    decreases |x|
  {
    if |x| == 0 then 0 else
    var e := RunEnd(less, x, 0);
    if e == |x| then 1 else
    1 + PassCount(less, x[RunEnd(less, x, e)..])
  }

  lemma ThreeParts<T>(x: seq<T>, e: nat, f: nat)
    requires e <= f <= |x|
    ensures x == x[..e] + (x[e..f] + x[f..])
    ensures multiset(x) == multiset(x[..e]) + multiset(x[e..f]) + multiset(x[f..])
  {
    assert x == x[..e] + (x[e..f] + x[f..]);
  }

  lemma PartsWithin<T>(x: seq<T>, e: nat, f: nat, dom: set<T>)
    requires e <= f <= |x| && Within(x, dom)
    ensures Within(x[..e], dom) && Within(x[e..f], dom) && Within(x[f..], dom)
  {
  }

  lemma {:induction false} PassItems<T>(less: (T, T) -> bool, x: seq<T>)
    ensures multiset(Pass(less, x)) == multiset(x)
    decreases |x|
  {
    hide Merge, RunEnd;
    if x != [] && RunEnd(less, x, 0) < |x| {
      var e := RunEnd(less, x, 0);
      var f := RunEnd(less, x, e);
      MergeItems(less, x[..e], x[e..f]);
      PassItems(less, x[f..]);
      ThreeParts(x, e, f);
    }
  }

  lemma PassWithin<T>(less: (T, T) -> bool, x: seq<T>, dom: set<T>)
    requires Within(x, dom)
    ensures Within(Pass(less, x), dom)
  {
    PassItems(less, x);
    forall e | e in Pass(less, x) ensures e in dom {
      assert e in multiset(x);
    }
  }

  lemma TwoRuns<T>(less: (T, T) -> bool, x: seq<T>, e: nat, f: nat, dom: set<T>)
    requires StrictWeak(less, dom) && Within(x, dom)
    requires x != [] && e == RunEnd(less, x, 0) < |x| && f == RunEnd(less, x, e)
    ensures Sorted(less, x[..e]) && Sorted(less, x[e..f])
    ensures Within(x[..e], dom) && Within(x[e..f], dom) && Within(x[f..], dom)
    ensures x == x[..e] + (x[e..f] + x[f..])
  {
    hide Sorted, StrictWeak, Within, RunEnd;
    RunSorted(less, x, 0, dom);
    RunSorted(less, x, e, dom);
    assert x[0..e] == x[..e];
    ThreeParts(x, e, f);
    PartsWithin(x, e, f, dom);
  }

  /** Each pass over R runs outputs ceil(R/2) runs, and the list has at most that many afterwards. */
  lemma {:induction false} PassHalves<T>(less: (T, T) -> bool, x: seq<T>, dom: set<T>)
    requires StrictWeak(less, dom) && Within(x, dom)
    ensures PassCount(less, x) == (Runs(less, x) + 1) / 2
    ensures Runs(less, Pass(less, x)) <= PassCount(less, x)
    decreases |x|
  {
    hide Sorted, StrictWeak, Descents;
    if x != [] {
      var e := RunEnd(less, x, 0);
      FirstRunOff(less, x);
      if e < |x| {
        var f := RunEnd(less, x, e);
        TwoRuns(less, x, e, f, dom);
        RunEndShift(less, x, e);
        FirstRunOff(less, x[e..]);
        assert x[e..][f - e..] == x[f..];
        PassHalves(less, x[f..], dom);
        var m := Merge(less, x[..e], x[e..f]);
        MergeSorted(less, x[..e], x[e..f], dom);
        MergeItems(less, x[..e], x[e..f]);
        SortedOneRun(less, m);
        RunsConcat(less, m, Pass(less, x[f..]));
      }
    }
  }

  lemma {:induction false} PassStable<T>(less: (T, T) -> bool, x: seq<T>, g: T, dom: set<T>)
    requires StrictWeak(less, dom) && Within(x, dom) && g in dom
    ensures Class(less, Pass(less, x), g) == Class(less, x, g)
    decreases |x|
  {
    hide Sorted, StrictWeak, Class;
    if x != [] && RunEnd(less, x, 0) < |x| {
      var e := RunEnd(less, x, 0);
      var f := RunEnd(less, x, e);
      TwoRuns(less, x, e, f, dom);
      MergeStable(less, x[..e], x[e..f], g, dom);
      PassStable(less, x[f..], g, dom);
      ClassConcat(less, Merge(less, x[..e], x[e..f]), Pass(less, x[f..]), g);
      ClassConcat(less, x[e..f], x[f..], g);
      ClassConcat(less, x[..e], x[e..f] + x[f..], g);
    }
  }

  /** A pass that outputs at most one run leaves the list sorted. */
  lemma LastPassSorted<T>(less: (T, T) -> bool, x: seq<T>, dom: set<T>)
    requires StrictWeak(less, dom) && Within(x, dom) && PassCount(less, x) <= 1
    ensures Sorted(less, Pass(less, x))
  {
    hide Sorted, StrictWeak, Descents;
    if x == [] {
      EmptySorted(less);
    } else {
      var e := RunEnd(less, x, 0);
      if e == |x| {
        RunSorted(less, x, 0, dom);
        assert x[0..e] == x;
      } else {
        var f := RunEnd(less, x, e);
        TwoRuns(less, x, e, f, dom);
        assert x[f..] == [];
        MergeSorted(less, x[..e], x[e..f], dom);
        assert Pass(less, x) == Merge(less, x[..e], x[e..f]);
      }
    }
  }

  lemma EmptySorted<T>(less: (T, T) -> bool)
    ensures Sorted(less, [])
  {
  }

  /** What list_sort computes: passes until one outputs at most one run. */
  function Sort<T>(less: (T, T) -> bool, x: seq<T>, ghost dom: set<T>): seq<T>
    requires StrictWeak(less, dom) && Within(x, dom)
    decreases Runs(less, x)
  {
    PassWithin(less, x, dom);
    PassHalves(less, x, dom);
    if PassCount(less, x) <= 1 then Pass(less, x) else Sort(less, Pass(less, x), dom)
  }

  /** The sort returns a sorted, stable rearrangement. */
  lemma {:induction false} SortCorrect<T>(less: (T, T) -> bool, x: seq<T>, dom: set<T>)
    requires StrictWeak(less, dom) && Within(x, dom)
    ensures Sorted(less, Sort(less, x, dom))
    ensures multiset(Sort(less, x, dom)) == multiset(x)
    ensures StableFor(less, x, Sort(less, x, dom), dom)
    decreases Runs(less, x)
  {
    hide Sorted, StrictWeak, Class;
    PassWithin(less, x, dom);
    PassHalves(less, x, dom);
    PassItems(less, x);
    forall g | g in dom ensures Class(less, Pass(less, x), g) == Class(less, x, g) {
      PassStable(less, x, g, dom);
    }
    if PassCount(less, x) <= 1 {
      LastPassSorted(less, x, dom);
    } else {
      SortCorrect(less, Pass(less, x), dom);
    }
  }

  // ---------- the result is determined ----------

  lemma ClassOfHead<T>(less: (T, T) -> bool, x: seq<T>, dom: set<T>)
    requires StrictWeak(less, dom) && Within(x, dom) && x != []
    ensures Class(less, x, x[0]) != [] && Class(less, x, x[0])[0] == x[0]
  {
    assert x[0] in x;
  }

  /** The front of a sorted, stable rearrangement Y of X is the first of X's smallest elements. */
  lemma FrontFirst<T>(less: (T, T) -> bool, x: seq<T>, y: seq<T>, dom: set<T>) returns (i: nat)
    requires StrictWeak(less, dom) && Within(x, dom) && x != []
    requires Sorted(less, y) && StableFor(less, x, y, dom) && multiset(y) == multiset(x)
    ensures y != [] && i < |x| && x[i] == y[0]
    ensures forall j :: 0 <= j < |x| ==> !less(x[j], x[i])
    ensures forall j :: 0 <= j < i ==> less(x[i], x[j])
  {
    assert |multiset(y)| == |multiset(x)|;
    assert y[0] in multiset(x);
    assert !less(y[0], y[0]);
    FrontLeast(less, x, y);
    assert Class(less, x, y[0]) == Class(less, y, y[0]);
    assert Class(less, y, y[0])[0] == y[0];
    i := ClassFront(less, x, y[0]);
  }

  lemma FrontLeast<T>(less: (T, T) -> bool, x: seq<T>, y: seq<T>)
    requires Sorted(less, y) && multiset(y) == multiset(x) && y != [] && !less(y[0], y[0])
    ensures forall j :: 0 <= j < |x| ==> !less(x[j], y[0])
  {
    forall j | 0 <= j < |x| ensures !less(x[j], y[0]) {
      assert x[j] in multiset(y);
      var k :| 0 <= k < |y| && y[k] == x[j];
    }
  }

  /** Nothing before the first element equivalent to G is equivalent to it. */
  lemma {:induction false} ClassFront<T>(less: (T, T) -> bool, x: seq<T>, g: T) returns (i: nat)
    requires Class(less, x, g) != []
    ensures i < |x| && x[i] == Class(less, x, g)[0]
    ensures forall j :: 0 <= j < i ==> less(x[j], g) || less(g, x[j])
  {
    if !less(x[0], g) && !less(g, x[0]) {
      i := 0;
    } else {
      var k := ClassFront(less, x[1..], g);
      i := k + 1;
    }
  }

  lemma {:induction false} ClassMembers<T>(less: (T, T) -> bool, x: seq<T>, g: T)
    ensures forall e :: e in Class(less, x, g) ==> e in x && !less(e, g) && !less(g, e)
  {
    if x != [] {
      ClassMembers(less, x[1..], g);
      assert x == [x[0]] + x[1..];
    }
  }

  /** A sorted sequence is determined by its classes of equivalent elements. */
  lemma {:induction false} SortedUnique<T>(less: (T, T) -> bool, x: seq<T>, y: seq<T>, dom: set<T>)
    requires StrictWeak(less, dom) && Within(x, dom) && Within(y, dom)
    requires Sorted(less, x) && Sorted(less, y) && StableFor(less, x, y, dom)
    ensures x == y
    decreases |x|
  {
    hide Sorted, Class;
    SameEmptiness(less, x, y, dom);
    if x != [] {
      HeadsAgree(less, x, y, dom);
      SortedTail(less, x);
      SortedTail(less, y);
      TailsStable(less, x, y, dom);
      TailWithin(x, dom);
      TailWithin(y, dom);
      SortedUnique(less, x[1..], y[1..], dom);
      assert x == [x[0]] + x[1..] && y == [y[0]] + y[1..];
    }
  }

  lemma TailWithin<T>(x: seq<T>, dom: set<T>)
    requires x != [] && Within(x, dom)
    ensures x[0] in dom && Within(x[1..], dom)
  {
    assert x[0] in x;
  }

  lemma SameEmptiness<T>(less: (T, T) -> bool, x: seq<T>, y: seq<T>, dom: set<T>)
    requires StrictWeak(less, dom) && Within(x, dom) && Within(y, dom) && StableFor(less, x, y, dom)
    ensures x == [] <==> y == []
  {
    if x != [] {
      ClassOfHead(less, x, dom);
      assert x[0] in x;
    }
    if y != [] {
      ClassOfHead(less, y, dom);
      assert y[0] in y;
    }
  }

  lemma HeadsAgree<T>(less: (T, T) -> bool, x: seq<T>, y: seq<T>, dom: set<T>)
    requires StrictWeak(less, dom) && Within(x, dom) && Within(y, dom) && x != [] && y != []
    requires Sorted(less, x) && Sorted(less, y) && StableFor(less, x, y, dom)
    ensures x[0] == y[0]
  {
    hide Sorted;
    assert x[0] in x && y[0] in y;
    HeadNotAbove(less, x, y, dom);
    HeadNotAbove(less, y, x, dom);
    ClassOfHead(less, x, dom);
    assert Class(less, y, x[0])[0] == y[0];
  }

  lemma HeadNotAbove<T>(less: (T, T) -> bool, x: seq<T>, y: seq<T>, dom: set<T>)
    requires StrictWeak(less, dom) && Within(x, dom) && Within(y, dom) && x != [] && y != []
    requires Sorted(less, y) && StableFor(less, x, y, dom)
    ensures !less(x[0], y[0])
  {
    hide Sorted, Class;
    assert x[0] in x && y[0] in y;
    ClassOfHead(less, x, dom);
    var c := Class(less, y, x[0]);
    assert c != [];
    ClassMembers(less, y, x[0]);
    var e := c[0];
    assert e in c && e in y && !less(x[0], e) && !less(e, x[0]);
    SortedTail(less, y);
    assert y == [y[0]] + y[1..];
    assert e == y[0] || !less(e, y[0]);
  }

  lemma TailsStable<T>(less: (T, T) -> bool, x: seq<T>, y: seq<T>, dom: set<T>)
    requires x != [] && y != [] && x[0] == y[0] && StableFor(less, x, y, dom)
    ensures StableFor(less, x[1..], y[1..], dom)
  {
    forall g | g in dom ensures Class(less, y[1..], g) == Class(less, x[1..], g) {
      assert Class(less, y, g) == Class(less, x, g);
      if !less(x[0], g) && !less(g, x[0]) {
        assert ([x[0]] + Class(less, x[1..], g))[1..] == Class(less, x[1..], g);
        assert ([x[0]] + Class(less, y[1..], g))[1..] == Class(less, y[1..], g);
      }
    }
  }

  // ---------- ordered insertion ----------

  /** Where list_insert_ordered puts E: before the first element that E is less than. */
  function InsertPos<T>(less: (T, T) -> bool, x: seq<T>, e: T): (k: nat)
    ensures k <= |x|
    ensures k < |x| ==> less(e, x[k])
    ensures forall i :: 0 <= i < k ==> !less(e, x[i])
  {
    if |x| == 0 || less(e, x[0]) then 0 else
    var k := InsertPos(less, x[1..], e);
    assert forall i :: 0 < i < k + 1 ==> x[i] == x[1..][i - 1];
    k + 1
  }

  function Inserted<T>(less: (T, T) -> bool, x: seq<T>, e: T): (r: seq<T>)
    ensures |r| == |x| + 1 && multiset(r) == multiset(x) + multiset{e}
  {
    var k := InsertPos(less, x, e);
    assert x == x[..k] + x[k..];
    x[..k] + [e] + x[k..]
  }

  lemma InsertPosIs<T>(less: (T, T) -> bool, x: seq<T>, e: T, k: nat)
    requires k <= |x| && (k < |x| ==> less(e, x[k])) && forall i :: 0 <= i < k ==> !less(e, x[i])
    ensures InsertPos(less, x, e) == k
  {
  }

  /** Insertion keeps a list sorted, and puts the new element after its equals. */
  lemma InsertSorted<T>(less: (T, T) -> bool, x: seq<T>, e: T, dom: set<T>)
    requires StrictWeak(less, dom) && Within(x, dom) && e in dom && Sorted(less, x)
    ensures Sorted(less, Inserted(less, x, e))
  {
    var k := InsertPos(less, x, e);
    var r := Inserted(less, x, e);
    forall i, j | 0 <= i < j < |r| ensures !less(r[j], r[i]) {
      var a := if i <= k then i else i - 1;
      var b := if j <= k then j else j - 1;
      if i == k {
        assert less(e, x[k]) && x[k] in x && x[b] in x;
        assert b == k || !less(x[b], x[k]);
      } else if j == k {
        assert !less(e, x[i]);
      } else {
        assert !less(x[b], x[a]);
      }
    }
  }

  lemma InsertStable<T>(less: (T, T) -> bool, x: seq<T>, e: T, g: T, dom: set<T>)
    requires StrictWeak(less, dom) && Within(x, dom) && e in dom && g in dom && Sorted(less, x)
    ensures Class(less, Inserted(less, x, e), g) == Class(less, x + [e], g)
  {
    hide Class, Sorted, StrictWeak, Within;
    var k := InsertPos(less, x, e);
    InsertParts(less, x, e);
    ClassConcat(less, x[..k], [e] + x[k..], g);
    ClassConcat(less, x[..k], x[k..] + [e], g);
    ClassConcat(less, [e], x[k..], g);
    ClassConcat(less, x[k..], [e], g);
    ClassSingle(less, e, g);
    if !less(e, g) && !less(g, e) && k < |x| {
      TailAbove(less, x, k, e, g, dom);
      ClassEmpty(less, x[k..], g);
    } else if k == |x| {
      assert [e] + x[k..] == x[k..] + [e];
    }
  }

  lemma InsertParts<T>(less: (T, T) -> bool, x: seq<T>, e: T)
    ensures var k := InsertPos(less, x, e);
            Inserted(less, x, e) == x[..k] + ([e] + x[k..]) && x + [e] == x[..k] + (x[k..] + [e])
  {
    hide InsertPos;
    var k := InsertPos(less, x, e);
    assert x == x[..k] + x[k..];
  }

  lemma ClassSingle<T>(less: (T, T) -> bool, e: T, g: T)
    ensures Class(less, [e], g) == if !less(e, g) && !less(g, e) then [e] else []
  {
    assert [e][1..] == [];
  }

  lemma TailAbove<T>(less: (T, T) -> bool, x: seq<T>, k: nat, e: T, g: T, dom: set<T>)
    requires StrictWeak(less, dom) && Within(x, dom) && e in dom && g in dom && Sorted(less, x)
    requires k < |x| && less(e, x[k]) && !less(e, g) && !less(g, e)
    ensures forall d :: d in x[k..] ==> less(g, d)
  {
    assert x[k] in x;
    forall d | d in x[k..] ensures less(g, d) {
      var j :| 0 <= j < |x[k..]| && x[k..][j] == d;
      assert x[k + j] == d && d in x;
      assert j == 0 || !less(x[k + j], x[k]);
    }
  }
}
