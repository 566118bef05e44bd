/** The doubly linked list of lib/kernel/list.c: elements linked through PREV and NEXT between two
    sentinels, sorted in place by relinking. */
module KernelList {
  import opened Basics
  import opened ListSpec

  class Elem {
    var prev: Elem?
    var next: Elem?

    constructor ()
      ensures prev == null && next == null
    {
      prev, next := null, null;
    }
  }

  /** S, sentinels included, is linked in both directions. */
  ghost predicate Linked(s: seq<Elem>)
    reads s
  {
    && (forall i {:trigger s[i].next} :: 0 <= i < |s| - 1 ==> s[i].next == s[i + 1])
    && (forall i {:trigger s[i].prev} :: 0 < i < |s| ==> s[i].prev == s[i - 1])
  }

  ghost predicate IsList(s: seq<Elem>)
    reads s
  {
    |s| >= 2 && NoDup(s) && Linked(s) && s[0].prev == null && s[|s| - 1].next == null
  }

  // ---------- splice ----------

  /** S with its blocks [p, q) and [q, r) exchanged. */
  ghost function Swapped<T>(s: seq<T>, p: nat, q: nat, r: nat): (t: seq<T>)
    requires p <= q <= r <= |s|
    ensures |t| == |s|
    ensures forall i :: 0 <= i < |s| ==> t[i] == s[Origin(p, q, r, i)]
  {
    s[..p] + s[q..r] + s[p..q] + s[r..]
  }

  /** Which position of S ends up at position I. */
  ghost function Origin(p: nat, q: nat, r: nat, i: int): int {
    if i < p || r <= i then i
    else if i < p + (r - q) then q + (i - p)
    else i - (r - q)
  }

  /** The links after the exchange: only the three block boundaries changed. */
  ghost predicate Relinked(s: seq<Elem>, p: nat, q: nat, r: nat)
    requires 0 < p < q < r < |s|
    reads s
  {
    && (forall i {:trigger s[i].next} :: 0 <= i < |s| - 1 ==>
        s[i].next == if i == p - 1 then s[q] else if i == r - 1 then s[p] else if i == q - 1 then s[r] else s[i + 1])
    && (forall i {:trigger s[i].prev} :: 0 < i < |s| ==>
        s[i].prev == if i == q then s[p - 1] else if i == p then s[r - 1] else if i == r then s[q - 1] else s[i - 1])
    && s[0].prev == null && s[|s| - 1].next == null
  }

  lemma OriginDistinct(p: nat, q: nat, r: nat, i: nat, j: nat, n: nat)
    requires p <= q <= r <= n && i < j < n
    ensures 0 <= Origin(p, q, r, i) < n && 0 <= Origin(p, q, r, j) < n
    ensures Origin(p, q, r, i) != Origin(p, q, r, j)
  {
  }

  lemma EndsStay(p: nat, q: nat, r: nat, n: nat)
    requires 0 < p <= q <= r < n
    ensures Origin(p, q, r, 0) == 0 && Origin(p, q, r, n - 1) == n - 1
  {
  }

  lemma OriginNext(p: nat, q: nat, r: nat, i: nat, n: nat)
    requires 0 < p < q < r < n && i < n - 1
    ensures var o, o' := Origin(p, q, r, i), Origin(p, q, r, i + 1);
            && 0 <= o < n - 1 && 0 < o' < n
            && o' == (if o == p - 1 then q else if o == r - 1 then p else if o == q - 1 then r else o + 1)
  {
  }

  lemma RelinkedIsList(s: seq<Elem>, p: nat, q: nat, r: nat)
    requires NoDup(s) && 0 < p < q < r < |s| && Relinked(s, p, q, r)
    ensures IsList(Swapped(s, p, q, r))
  {
    hide Swapped, Origin;
    var t := Swapped(s, p, q, r);
    EndsStay(p, q, r, |s|);
    assert t[0] == s[Origin(p, q, r, 0)] && t[|s| - 1] == s[Origin(p, q, r, |s| - 1)];
    forall i, j | 0 <= i < j < |t| ensures t[i] != t[j] {
      OriginDistinct(p, q, r, i, j, |s|);
      assert t[i] == s[Origin(p, q, r, i)] && t[j] == s[Origin(p, q, r, j)];
    }
    forall i | 0 <= i < |t| - 1 ensures t[i].next == t[i + 1] {
      OriginNext(p, q, r, i, |s|);
      var o, o' := Origin(p, q, r, i), Origin(p, q, r, i + 1);
      assert t[i] == s[o] && t[i + 1] == s[o'] && s[o].next == s[o'];
    }
    forall i | 0 < i < |t| ensures t[i].prev == t[i - 1] {
      OriginNext(p, q, r, i - 1, |s|);
      var o, o' := Origin(p, q, r, i), Origin(p, q, r, i - 1);
      assert t[i] == s[o] && t[i - 1] == s[o'] && s[o].prev == s[o'];
    }
  }

  /** The pointer updates of list_splice, for FIRST..LAST (inclusive) not directly before BEFORE. */
  method Relink(before: Elem, first: Elem, last: Elem, ghost s: seq<Elem>, ghost p: nat, ghost q: nat, ghost r: nat)
    requires IsList(s) && 0 < p < q < r < |s|
    requires (before == s[p] && first == s[q] && last == s[r - 1]) ||
             (before == s[r] && first == s[p] && last == s[q - 1])
    modifies s
    ensures Relinked(s, p, q, r)
  {
    hide IsList, NoDup;
    ListAt(s, p);
    ListAt(s, q);
    ListAt(s, r);
    assert NoDup(s) && Linked(s) && s[0].prev == null && s[|s| - 1].next == null by { ListParts(s); }
    DifferentSpots(s);
    first.prev.next := last.next;
    last.next.prev := first.prev;
    first.prev := before.prev;
    last.next := before;
    before.prev.next := first;
    before.prev := last;
  }

  lemma ListParts(s: seq<Elem>)
    requires IsList(s)
    ensures NoDup(s) && Linked(s) && s[0].prev == null && s[|s| - 1].next == null
  {
  }

  lemma ListAt(s: seq<Elem>, i: nat)
    requires IsList(s) && 0 < i < |s|
    ensures s[i].prev == s[i - 1] && s[i - 1].next == s[i]
  {
  }

  /** list_splice within one list: moves FIRST..LAST (exclusive) before BEFORE, which is outside it. */
  method Splice(before: Elem, first: Elem, last0: Elem, ghost s: seq<Elem>, ghost b: nat, ghost f: nat, ghost l: nat)
    requires IsList(s)
    requires 0 < b < |s| && 0 < f <= l < |s| && (b < f || l < b)
    requires s[b] == before && s[f] == first && s[l] == last0
    modifies s
    ensures IsList(if b < f then Swapped(s, b, f, l) else Swapped(s, f, l, b))
  {
    hide Swapped, Origin, Relinked, Linked;
    if first == last0 {
      SwapNothing(s, b, f, l);
      return;
    }
    ListAt(s, l);
    var last := last0.prev;
    ghost var p, q, r := if b < f then b else f, if b < f then f else l, if b < f then l else b;
    Relink(before, first, last, s, p, q, r);
    RelinkedIsList(s, p, q, r);
  }

  lemma SwapNothing<T>(s: seq<T>, b: nat, f: nat, l: nat)
    requires b <= |s| && f <= l <= |s| && (f == l || b == l)
    ensures b <= f ==> Swapped(s, b, f, l) == s
    ensures l <= b ==> Swapped(s, f, l, b) == s
  {
  }

  // ---------- insertion and removal ----------

  /** list_insert: puts ELEM just before BEFORE, an interior element or the tail. */
  method Insert(before: Elem, elem: Elem, ghost s: seq<Elem>, ghost b: nat)
    requires IsList(s) && 0 < b < |s| && s[b] == before && elem !in s
    modifies s, elem
    ensures IsList(s[..b] + [elem] + s[b..])
  {
    ghost var t := s[..b] + [elem] + s[b..];
    assert forall i :: 0 <= i < |t| ==> t[i] == if i < b then s[i] else if i == b then elem else s[i - 1];
    ListAt(s, b);
    elem.prev := before.prev;
    elem.next := before;
    before.prev.next := elem;
    before.prev := elem;
  }

  /** list_remove: unlinks ELEM and returns the element that followed it. */
  method Remove(elem: Elem, ghost s: seq<Elem>, ghost k: nat) returns (next: Elem)
    requires IsList(s) && 0 < k < |s| - 1 && s[k] == elem
    modifies s
    ensures IsList(s[..k] + s[k + 1..])
    ensures next == s[k + 1] && elem.prev == s[k - 1] && elem.next == next
  {
    hide NoDup;
    ghost var t := s[..k] + s[k + 1..];
    assert forall i :: 0 <= i < |t| ==> t[i] == if i < k then s[i] else s[i + 1];
    WithoutNoDup(s, k);
    ListAt(s, k);
    ListAt(s, k + 1);
    DifferentSpots(s);
    elem.prev.next := elem.next;
    elem.next.prev := elem.prev;
    next := elem.next;
  }

  lemma WithoutNoDup(s: seq<Elem>, k: nat)
    requires NoDup(s) && k < |s|
    ensures NoDup(s[..k] + s[k + 1..])
  {
  }

  lemma DifferentSpots(s: seq<Elem>)
    requires NoDup(s)
    ensures forall i, j :: 0 <= i < |s| && 0 <= j < |s| && s[i] == s[j] ==> i == j
  {
  }

  // ---------- the sort ----------

  /** find_end_of_run: the end of the nondecreasing run starting at A, not going past B. */
  method FindEndOfRun(a0: Elem, b: Elem, less: (Elem, Elem) -> bool, ghost s: seq<Elem>, ghost i: nat, ghost n: nat)
    returns (a: Elem, ghost r: nat)
    requires IsList(s) && 0 < i < n < |s| && s[i] == a0 && s[n] == b
    ensures RunEnd(less, s[..n], i) <= n && a == s[RunEnd(less, s[..n], i)]
    ensures i < r <= n && r == RunEnd(less, s[..n], i)
  {
    hide IsList, RunEnd;
    ListAt(s, i + 1);
    ListParts(s);
    a := a0.next;
    r := i + 1;
    while a != b && !less(a, a.prev)
      invariant i < r <= n && s[r] == a && a.prev == s[r - 1]
      invariant forall k :: i < k < r ==> !less(s[k], s[k - 1])
      decreases n - r
    {
      ListAt(s, r + 1);
      a := a.next;
      r := r + 1;
    }
    RunEndIs(less, s[..n], i, r);
  }

  /** Half-way through merging the runs [lo, mid) and [mid, hi) of S: T has the merged output in
      [lo, x), what is left of the first run in [x, m), of the second in [m, hi). */
  ghost predicate Merging(less: (Elem, Elem) -> bool, s: seq<Elem>, lo: nat, mid: nat, hi: nat,
                          t: seq<Elem>, x: nat, m: nat) {
    && lo <= mid <= hi < |s| == |t| && lo <= x <= m <= hi
    && t[..lo] == s[..lo] && t[hi..] == s[hi..]
    && t[lo..x] + Merge(less, t[x..m], t[m..hi]) == Merge(less, s[lo..mid], s[mid..hi])
  }

  ghost predicate Among(t: seq<Elem>, s: seq<Elem>) {
    forall i :: 0 <= i < |t| ==> t[i] in s
  }

  lemma MergeStepA(less: (Elem, Elem) -> bool, s: seq<Elem>, lo: nat, mid: nat, hi: nat,
                   t: seq<Elem>, x: nat, m: nat)
    requires Merging(less, s, lo, mid, hi, t, x, m) && x < m < hi && !less(t[m], t[x])
    ensures Merging(less, s, lo, mid, hi, t, x + 1, m)
  {
    assert t[x..m][1..] == t[x + 1..m];
    assert t[lo..x + 1] == t[lo..x] + [t[x]];
  }

  lemma MergeStepB(less: (Elem, Elem) -> bool, s: seq<Elem>, lo: nat, mid: nat, hi: nat,
                   t: seq<Elem>, x: nat, m: nat)
    requires Merging(less, s, lo, mid, hi, t, x, m) && x < m < hi && less(t[m], t[x])
    ensures var u := Swapped(t, x, m, m + 1);
            && Merging(less, s, lo, mid, hi, u, x + 1, m + 1)
            && u[x + 1] == t[x] && u[m + 1] == t[m + 1] && u[hi] == t[hi]
            && Among(u, t)
  {
    hide Swapped, Merge, Origin;
    SwapShift(t, lo, x, m, hi);
    var rest := Merge(less, t[x..m], t[m + 1..hi]);
    MergeFront(less, t[x..m], t[m..hi], t[m + 1..hi]);
    AppendFront(t[lo..x], t[m], rest);
  }

  lemma MergeFront(less: (Elem, Elem) -> bool, a: seq<Elem>, b: seq<Elem>, tail: seq<Elem>)
    requires a != [] && b != [] && less(b[0], a[0]) && tail == b[1..]
    ensures Merge(less, a, b) == [b[0]] + Merge(less, a, tail)
  {
  }

  lemma AppendFront(a: seq<Elem>, e: Elem, rest: seq<Elem>)
    ensures (a + [e]) + rest == a + ([e] + rest)
  {
  }

  /** Moving element M in front of [x, m) shifts that block by one. */
  lemma SwapShift(t: seq<Elem>, lo: nat, x: nat, m: nat, hi: nat)
    requires lo <= x < m < hi < |t|
    ensures var u := Swapped(t, x, m, m + 1);
            && u[x + 1..m + 1] == t[x..m] && u[m + 1..hi] == t[m + 1..hi] && u[lo..x + 1] == t[lo..x] + [t[m]]
            && u[..lo] == t[..lo] && u[hi..] == t[hi..] && Among(u, t)
            && u[x + 1] == t[x] && u[m + 1] == t[m + 1] && u[hi] == t[hi]
  {
    var u := Swapped(t, x, m, m + 1);
    assert u[x + 1..m + 1] == t[x..m];
    forall i | 0 <= i < |u| ensures u[i] in t {
      assert u[i] == t[Origin(x, m, m + 1, i)];
    }
  }

  /** T is S with its adjacent runs [lo, mid) and [mid, hi) merged. */
  ghost predicate Merged(less: (Elem, Elem) -> bool, s: seq<Elem>, lo: nat, mid: nat, hi: nat, t: seq<Elem>) {
    && lo <= mid <= hi <= |s| == |t|
    && t == s[..lo] + Merge(less, s[lo..mid], s[mid..hi]) + s[hi..]
  }

  lemma MergeEnd(less: (Elem, Elem) -> bool, s: seq<Elem>, lo: nat, mid: nat, hi: nat,
                 t: seq<Elem>, x: nat, m: nat)
    requires Merging(less, s, lo, mid, hi, t, x, m) && (x == m || m == hi)
    ensures Merged(less, s, lo, mid, hi, t)
  {
    hide Merge;
    FourParts(t, lo, x, m, hi);
    MergeEmpty(less, t[x..m], t[m..hi]);
  }

  lemma FourParts(t: seq<Elem>, lo: nat, x: nat, m: nat, hi: nat)
    requires lo <= x <= m <= hi <= |t|
    ensures t == t[..lo] + (t[lo..x] + (t[x..m] + t[m..hi])) + t[hi..]
  {
  }

  lemma MergeEmpty(less: (Elem, Elem) -> bool, a: seq<Elem>, b: seq<Elem>)
    requires a == [] || b == []
    ensures Merge(less, a, b) == a + b
  {
  }

  lemma SameSpot(s: seq<Elem>, i: nat, j: nat)
    requires IsList(s) && i < |s| && j < |s|
    ensures s[i] == s[j] <==> i == j
  {
  }

  /** inplace_merge: merges the adjacent runs [lo, mid) and [mid, hi) by relinking. */
  method InplaceMerge(a: Elem, ab: Elem, b1: Elem, less: (Elem, Elem) -> bool,
                      ghost s: seq<Elem>, ghost lo: nat, ghost mid: nat, ghost hi: nat)
    returns (ghost t: seq<Elem>)
    requires IsList(s) && 0 < lo <= mid <= hi < |s|
    requires s[lo] == a && s[mid] == ab && s[hi] == b1
    modifies s
    ensures IsList(t) && |t| == |s| && Among(t, s)
    ensures Merged(less, s, lo, mid, hi, t)
  {
    hide IsList, Merge, Swapped, Merging, Merged;
    var a0, a1b0 := a, ab;
    t := s;
    ghost var x, m := lo, mid;
    MergeStart(less, s, lo, mid, hi);
    while a0 != a1b0 && a1b0 != b1
      invariant IsList(t) && |t| == |s| && Among(t, s)
      invariant lo <= x <= m <= hi && t[x] == a0 && t[m] == a1b0 && t[hi] == b1
      invariant Merging(less, s, lo, mid, hi, t, x, m)
      decreases hi - m, m - x
    {
      SameSpot(t, x, m);
      SameSpot(t, m, hi);
      if !less(a1b0, a0) {
        MergeStepA(less, s, lo, mid, hi, t, x, m);
        ListAt(t, x + 1);
        a0 := a0.next;
        x := x + 1;
      } else {
        a1b0, t := TakeFromSecond(a0, a1b0, less, s, lo, mid, hi, t, x, m);
        x, m := x + 1, m + 1;
      }
    }
    SameSpot(t, x, m);
    SameSpot(t, m, hi);
    MergeEnd(less, s, lo, mid, hi, t, x, m);
  }

  /** The else branch of the merge loop: moves the front of the second run before A0. */
  method TakeFromSecond(a0: Elem, a1b0: Elem, less: (Elem, Elem) -> bool, ghost s: seq<Elem>, ghost lo: nat,
                        ghost mid: nat, ghost hi: nat, ghost t: seq<Elem>, ghost x: nat, ghost m: nat)
    returns (next: Elem, ghost u: seq<Elem>)
    requires IsList(t) && Merging(less, s, lo, mid, hi, t, x, m) && Among(t, s)
    requires 0 < lo <= x < m < hi < |t| && t[x] == a0 && t[m] == a1b0 && less(a1b0, a0)
    modifies t
    ensures IsList(u) && |u| == |t| && Among(u, s)
    ensures Merging(less, s, lo, mid, hi, u, x + 1, m + 1)
    ensures u[x + 1] == a0 && u[m + 1] == next && u[hi] == t[hi]
  {
    hide IsList, Merge, Swapped, Merging;
    MergeStepB(less, s, lo, mid, hi, t, x, m);
    ListAt(t, m + 1);
    next := a1b0.next;
    Splice(a0, next.prev, next, t, x, m, m + 1);
    u := Swapped(t, x, m, m + 1);
  }

  lemma MergeStart(less: (Elem, Elem) -> bool, s: seq<Elem>, lo: nat, mid: nat, hi: nat)
    requires lo <= mid <= hi < |s|
    ensures Merging(less, s, lo, mid, hi, s, lo, mid)
  {
    assert s[lo..lo] == [];
  }

  /** Part-way through a pass: the output so far ends at LO, the rest of the list is untouched. */
  ghost predicate Passing(less: (Elem, Elem) -> bool, x0: seq<Elem>, s: seq<Elem>, lo: nat, count: nat) {
    && 0 < lo < |s|
    && s[1..lo] + Pass(less, s[lo..|s| - 1]) == Pass(less, x0)
    && count + PassCount(less, s[lo..|s| - 1]) == PassCount(less, x0)
  }

  lemma PassStart(less: (Elem, Elem) -> bool, s: seq<Elem>)
    requires |s| >= 2
    ensures Passing(less, s[1..|s| - 1], s, 1, 0)
  {
    assert s[1..1] == [];
  }

  lemma RestRuns(less: (Elem, Elem) -> bool, s: seq<Elem>, n: nat, lo: nat)
    requires lo < n <= |s|
    ensures RunEnd(less, s[..n], lo) == lo + RunEnd(less, s[lo..n], 0)
  {
    assert s[..n][lo..] == s[lo..n];
    RunEndShift(less, s[..n], lo);
  }

  /** Two adjacent runs [lo, e) and [e, f) of the list S, whose last position is its tail. */
  ghost predicate RunsAt(less: (Elem, Elem) -> bool, s: seq<Elem>, lo: nat, e: nat, f: nat) {
    && lo < |s| - 1
    && e == RunEnd(less, s[..|s| - 1], lo) < |s| - 1 && f == RunEnd(less, s[..|s| - 1], e)
  }

  lemma PassStep(less: (Elem, Elem) -> bool, x0: seq<Elem>, s: seq<Elem>, lo: nat, count: nat,
                 e: nat, f: nat, t: seq<Elem>)
    requires Passing(less, x0, s, lo, count) && lo < |s| - 1
    requires RunsAt(less, s, lo, e, f)
    requires Merged(less, s, lo, e, f, t)
    ensures Passing(less, x0, t, f, count + 1)
  {
    hide Merge, RunEnd, Pass, PassCount;
    var n := |s| - 1;
    var m := Merge(less, s[lo..e], s[e..f]);
    RestUnfold(less, s, n, lo, e, f);
    MergeItems(less, s[lo..e], s[e..f]);
    MergedSlices(s, lo, f, n, m, t);
    PassJoin(s[1..lo], m, Pass(less, s[f..n]));
  }

  lemma PassJoin<T>(a: seq<T>, b: seq<T>, c: seq<T>)
    ensures (a + b) + c == a + (b + c)
  {
  }

  lemma RestUnfold(less: (Elem, Elem) -> bool, s: seq<Elem>, n: nat, lo: nat, e: nat, f: nat)
    requires lo < n <= |s|
    requires e == RunEnd(less, s[..n], lo) < n && f == RunEnd(less, s[..n], e)
    ensures Pass(less, s[lo..n]) == Merge(less, s[lo..e], s[e..f]) + Pass(less, s[f..n])
    ensures PassCount(less, s[lo..n]) == 1 + PassCount(less, s[f..n])
  {
    hide Merge, RunEnd, Pass, PassCount;
    RunsOfRest(less, s, n, lo, e, f);
    RestSlices(s, lo, e, f, n);
    PassUnfold(less, s[lo..n], e - lo, f - lo);
  }

  lemma RunsOfRest(less: (Elem, Elem) -> bool, s: seq<Elem>, n: nat, lo: nat, e: nat, f: nat)
    requires lo < n <= |s|
    requires e == RunEnd(less, s[..n], lo) < n && f == RunEnd(less, s[..n], e)
    ensures e - lo == RunEnd(less, s[lo..n], 0) < n - lo && f - lo == RunEnd(less, s[lo..n], e - lo)
  {
    hide RunEnd;
    RestRuns(less, s, n, lo);
    RestRuns(less, s, n, e);
    assert s[lo..n][e - lo..] == s[e..n];
    RunEndShift(less, s[lo..n], e - lo);
  }

  lemma RestSlices(s: seq<Elem>, lo: nat, e: nat, f: nat, n: nat)
    requires lo <= e <= f <= n <= |s|
    ensures var y := s[lo..n]; y[..e - lo] == s[lo..e] && y[e - lo..f - lo] == s[e..f] && y[f - lo..] == s[f..n]
  {
    var y := s[lo..n];
    assert y[..e - lo] == s[lo..e];
    var a, b := e - lo, f - lo;
    forall i | 0 <= i < f - e ensures y[a..b][i] == s[e..f][i] {
      assert y[a..b][i] == y[a + i] == s[lo + (a + i)];
    }
    assert y[a..b] == s[e..f];
    assert y[b..] == s[f..n];
  }

  lemma MergedSlices(s: seq<Elem>, lo: nat, f: nat, n: nat, m: seq<Elem>, t: seq<Elem>)
    requires 1 <= lo <= f <= n < |s| == |t| && |m| == f - lo && t == s[..lo] + m + s[f..]
    ensures t[f..n] == s[f..n] && t[1..f] == s[1..lo] + m
  {
    assert t[f..] == s[f..];
    assert t[..f] == s[..lo] + m;
    assert t[..f][1..] == s[..lo][1..] + m;
  }

  lemma PassWhole<T>(less: (T, T) -> bool, y: seq<T>)
    requires y != [] && RunEnd(less, y, 0) == |y|
    ensures Pass(less, y) == y && PassCount(less, y) == 1
  {
  }

  lemma PassUnfold<T>(less: (T, T) -> bool, y: seq<T>, e: nat, f: nat)
    requires y != [] && e == RunEnd(less, y, 0) < |y| && f == RunEnd(less, y, e)
    ensures Pass(less, y) == Merge(less, y[..e], y[e..f]) + Pass(less, y[f..])
    ensures PassCount(less, y) == 1 + PassCount(less, y[f..])
  {
  }

  /** The pass ends at the tail, or with a run that reaches the tail. */
  lemma PassEnd(less: (Elem, Elem) -> bool, x0: seq<Elem>, s: seq<Elem>, lo: nat, count: nat)
    requires Passing(less, x0, s, lo, count)
    requires lo == |s| - 1 || RunEnd(less, s[..|s| - 1], lo) == |s| - 1
    ensures s[1..|s| - 1] == Pass(less, x0)
    ensures PassCount(less, x0) == if lo == |s| - 1 then count else count + 1
  {
    hide RunEnd, Merge;
    var n := |s| - 1;
    if lo < n {
      hide Pass, PassCount;
      RestRuns(less, s, n, lo);
      PassWhole(less, s[lo..n]);
      assert s[1..lo] + s[lo..n] == s[1..n];
    } else {
      assert s[lo..n] == [];
    }
  }

  class List {
    const head: Elem
    const tail: Elem
    ghost var all: seq<Elem>

    ghost predicate Valid()
      reads this, all
    {
      IsList(all) && all[0] == head && all[|all| - 1] == tail
    }

    /** The elements between the sentinels. */
    ghost function Items(): seq<Elem>
      reads this
    {
      if |all| >= 2 then all[1..|all| - 1] else []
    }

    /** list_init. */
    constructor ()
      ensures Valid() && Items() == [] && fresh(all)
    {
      var h := new Elem();
      var t := new Elem();
      head, tail := h, t;
      all := [h, t];
      new;
      head.next := tail;
      tail.prev := head;
    }

    /** list_sort: passes until one outputs at most one run. The result is the stable sort of the
        list for any strict weak order on its elements (ListSpec.SortCorrect, ListSpec.SortedUnique). */
    method ListSort(less: (Elem, Elem) -> bool, ghost dom: set<Elem>)
      requires Valid() && StrictWeak(less, dom) && Within(Items(), dom)
      modifies this`all, all
      ensures Valid() && Items() == Sort(less, old(Items()), dom)
    {
      hide IsList, StrictWeak, Within, Pass, PassCount, Runs, Valid, Items;
      ghost var x := Items();
      SortStep(less, x, dom);
      var outputRuns := OnePass(less);
      while outputRuns > 1
        invariant Valid() && Among(all, old(all))
        invariant Within(Items(), dom) && Runs(less, Items()) <= outputRuns
        invariant Sort(less, x, dom) == if outputRuns <= 1 then Items() else Sort(less, Items(), dom)
        decreases outputRuns
      {
        SortStep(less, Items(), dom);
        ghost var before := all;
        outputRuns := OnePass(less);
        AmongTrans(all, before, old(all));
      }
    }

    /** list_insert_ordered: puts ELEM before the first element it is less than. */
    method InsertOrdered(elem: Elem, less: (Elem, Elem) -> bool)
      requires Valid() && elem !in all
      modifies this`all, all, elem
      ensures Valid() && Items() == Inserted(less, old(Items()), elem)
    {
      hide IsList, Inserted, Linked, NoDup;
      ghost var s := all;
      ghost var k;
      var e;
      e, k := FirstAbove(elem, less);
      Insert(e, elem, s, k);
      InsertedItems(less, s, k, elem);
      RecordInserted(s, k, elem);
    }

    ghost method RecordInserted(s: seq<Elem>, k: nat, elem: Elem)
      requires 1 <= k < |s| && s[0] == head && s[|s| - 1] == tail && IsList(s[..k] + [elem] + s[k..])
      modifies this`all
      ensures Valid() && all == s[..k] + [elem] + s[k..]
    {
      Record(s[..k] + [elem] + s[k..]);
    }

    /** The search loop of list_insert_ordered. */
    method FirstAbove(elem: Elem, less: (Elem, Elem) -> bool) returns (e: Elem, ghost k: nat)
      requires Valid()
      ensures 1 <= k < |all| && all[k] == e
      ensures forall i :: 1 <= i < k ==> !less(elem, all[i])
      ensures k < |all| - 1 ==> less(elem, all[k])
    {
      hide IsList;
      HeadAndTail(all);
      ListAt(all, 1);
      e := head.next;
      k := 1;
      while e != tail && !less(elem, e)
        invariant 1 <= k < |all| && all[k] == e
        invariant forall i :: 1 <= i < k ==> !less(elem, all[i])
        decreases |all| - k
      {
        SameSpot(all, k, |all| - 1);
        ListAt(all, k + 1);
        e := e.next;
        k := k + 1;
      }
      SameSpot(all, k, |all| - 1);
    }

    /** One pass of list_sort; returns the number of runs it output. */
    method OnePass(less: (Elem, Elem) -> bool) returns (count: nat)
      requires Valid()
      modifies this`all, all
      ensures Valid() && |all| == |old(all)| && Among(all, old(all))
      ensures Items() == Pass(less, old(Items())) && count == PassCount(less, old(Items()))
    {
      hide IsList, Merge, RunEnd, Pass, PassCount, Passing;
      ghost var x0 := Items();
      HeadAndTail(all);
      PassStart(less, all);
      ListAt(all, 1);
      var a0 := head.next;
      ghost var lo := 1;
      count := 0;
      while a0 != tail
        invariant Valid() && |all| == |old(all)| && Among(all, old(all))
        invariant 0 < lo < |all| && all[lo] == a0
        invariant Passing(less, x0, all, lo, count)
        decreases |all| - lo
      {
        SameSpot(all, lo, |all| - 1);
        var reachedTail, b1;
        reachedTail, b1, lo := MergeTwoRuns(a0, less, x0, lo, count);
        count := count + 1;
        if reachedTail {
          return;
        }
        a0 := b1;
      }
      SameSpot(all, lo, |all| - 1);
      PassEnd(less, x0, all, lo, count);
    }

    /** The body of the pass: locates two adjacent runs and merges them, unless the first one
        reaches the tail. */
    method MergeTwoRuns(a0: Elem, less: (Elem, Elem) -> bool, ghost x0: seq<Elem>, ghost lo: nat, ghost count: nat)
      returns (reachedTail: bool, b1: Elem, ghost f: nat)
      requires Valid() && 0 < lo < |all| - 1 && all[lo] == a0 && Passing(less, x0, all, lo, count)
      modifies this`all, all
      ensures Valid() && |all| == |old(all)| && Among(all, old(all)) && 0 < f < |all| && lo < f
      ensures reachedTail ==> all == old(all) && Items() == Pass(less, x0) && PassCount(less, x0) == count + 1
      ensures !reachedTail ==> all[f] == b1 && Passing(less, x0, all, f, count + 1)
    {
      hide IsList, Merge, RunEnd, Pass, PassCount, Passing;
      HeadAndTail(all);
      ghost var e;
      var a1b0;
      a1b0, e := FindEndOfRun(a0, tail, less, all, lo, |all| - 1);
      SameSpot(all, e, |all| - 1);
      if a1b0 == tail {
        PassEnd(less, x0, all, lo, count);
        return true, tail, |all| - 1;
      }
      b1, f := FindEndOfRun(a1b0, tail, less, all, e, |all| - 1);
      MergeFound(a0, a1b0, b1, less, x0, lo, count, e, f);
      reachedTail := false;
    }

    method MergeFound(a0: Elem, a1b0: Elem, b1: Elem, less: (Elem, Elem) -> bool,
                      ghost x0: seq<Elem>, ghost lo: nat, ghost count: nat, ghost e: nat, ghost f: nat)
      requires Valid() && 0 < lo < |all| - 1 && Passing(less, x0, all, lo, count)
      requires lo < e < f < |all| && RunsAt(less, all, lo, e, f)
      requires all[lo] == a0 && all[e] == a1b0 && all[f] == b1
      modifies this`all, all
      ensures Valid() && |all| == |old(all)| && Among(all, old(all))
      ensures all[f] == b1 && Passing(less, x0, all, f, count + 1)
    {
      hide IsList, Passing, Merged, RunsAt;
      ghost var t := InplaceMerge(a0, a1b0, b1, less, all, lo, e, f);
      PassStep(less, x0, all, lo, count, e, f, t);
      MergedSpot(less, all, lo, e, f, t);
      Record(t);
    }

    /** Ghost bookkeeping: the list now consists of T. */
    ghost method Record(t: seq<Elem>)
      requires IsList(t) && t[0] == head && t[|t| - 1] == tail
      modifies this`all
      ensures Valid() && all == t
    {
      all := t;
    }
  }

  lemma SortStep(less: (Elem, Elem) -> bool, x: seq<Elem>, dom: set<Elem>)
    requires StrictWeak(less, dom) && Within(x, dom)
    ensures Within(Pass(less, x), dom)
    ensures Runs(less, Pass(less, x)) <= PassCount(less, x) == (Runs(less, x) + 1) / 2
    ensures Sort(less, x, dom)
      == if PassCount(less, x) <= 1 then Pass(less, x) else Sort(less, Pass(less, x), dom)
  {
    hide StrictWeak, Pass, PassCount, Runs;
    PassWithin(less, x, dom);
    PassHalves(less, x, dom);
  }

  lemma AmongTrans(a: seq<Elem>, b: seq<Elem>, c: seq<Elem>)
    requires Among(a, b) && Among(b, c)
    ensures Among(a, c)
  {
  }

  lemma InsertedItems(less: (Elem, Elem) -> bool, s: seq<Elem>, k: nat, elem: Elem)
    requires 1 <= k < |s|
    requires forall i :: 1 <= i < k ==> !less(elem, s[i])
    requires k < |s| - 1 ==> less(elem, s[k])
    ensures var t := s[..k] + [elem] + s[k..];
            t[1..|t| - 1] == Inserted(less, s[1..|s| - 1], elem)
  {
    hide InsertPos;
    var x, t := s[1..|s| - 1], s[..k] + [elem] + s[k..];
    InsertPosIs(less, x, elem, k - 1);
    InsertedAt(less, x, elem, k - 1);
    MiddleInsert(s, k, elem);
  }

  lemma InsertedAt<T>(less: (T, T) -> bool, x: seq<T>, e: T, k: nat)
    requires k <= |x| && InsertPos(less, x, e) == k
    ensures Inserted(less, x, e) == x[..k] + [e] + x[k..]
  {
  }

  lemma MiddleInsert<T>(s: seq<T>, k: nat, e: T)
    requires 1 <= k < |s|
    ensures var x, t := s[1..|s| - 1], s[..k] + [e] + s[k..];
            t[1..|t| - 1] == x[..k - 1] + [e] + x[k - 1..]
  {
    var x, t := s[1..|s| - 1], s[..k] + [e] + s[k..];
    assert x[..k - 1] == s[1..k];
    assert x[k - 1..] == s[k..|s| - 1];
    assert t[1..|t| - 1] == s[1..k] + [e] + s[k..|s| - 1];
  }

  lemma HeadAndTail(s: seq<Elem>)
    requires IsList(s)
    ensures |s| >= 2
  {
  }

  lemma MergedSpot(less: (Elem, Elem) -> bool, s: seq<Elem>, lo: nat, e: nat, f: nat, t: seq<Elem>)
    requires 0 < lo < e < f < |s| && Merged(less, s, lo, e, f, t)
    ensures |t| == |s| && t[0] == s[0] && t[f] == s[f] && t[|t| - 1] == s[|s| - 1]
  {
    MergeItems(less, s[lo..e], s[e..f]);
  }
}
