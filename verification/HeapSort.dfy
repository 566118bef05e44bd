/** sort and binary_search of lib/stdlib.c: heap sort in place over a 1-based heap, and bisection. Elements
    are values of a type T; swapping them byte by byte is one assignment here. */
module HeapSort {
  import opened Basics

  // ---------- the caller's order ----------

  /** A strcmp-like comparison of a total preorder. */
  ghost predicate TotalPreorder<T(!new)>(cmp: (T, T) -> int) {
    && (forall x, y :: cmp(x, y) <= 0 <==> cmp(y, x) >= 0)
    && (forall x, y, z :: Le(cmp, x, y) && Le(cmp, y, z) ==> Le(cmp, x, z))
  }

  predicate Le<T>(cmp: (T, T) -> int, x: T, y: T) { cmp(x, y) <= 0 }

  ghost predicate Sorted<T>(cmp: (T, T) -> int, s: seq<T>) {
    forall i, j :: 0 <= i < j < |s| ==> Le(cmp, s[i], s[j])
  }

  // ---------- heaps ----------

  /** Node P, counted from 1, is at least as large as its children among the first CNT nodes. */
  ghost predicate NodeOk<T>(cmp: (T, T) -> int, s: seq<T>, cnt: nat, p: nat)
    requires 1 <= p && cnt <= |s|
  {
    && (2 * p <= cnt ==> Le(cmp, s[2 * p - 1], s[p - 1]))
    && (2 * p + 1 <= cnt ==> Le(cmp, s[2 * p], s[p - 1]))
  }

  /** The nodes from LO on are in heap order. */
  ghost predicate Heap<T>(cmp: (T, T) -> int, s: seq<T>, lo: nat, cnt: nat)
    requires 1 <= lo && cnt <= |s|
  {
    forall p :: lo <= p <= cnt ==> NodeOk(cmp, s, cnt, p)
  }

  /** The same but for node I, whose parent is at least as large as its children. */
  ghost predicate HeapBut<T>(cmp: (T, T) -> int, s: seq<T>, lo: nat, cnt: nat, i: nat)
    requires 1 <= lo <= i && cnt <= |s|
  {
    && (forall p :: lo <= p <= cnt && p != i ==> NodeOk(cmp, s, cnt, p))
    && (lo <= i / 2 && 2 * i <= cnt ==> Le(cmp, s[2 * i - 1], s[i / 2 - 1]))
    && (lo <= i / 2 && 2 * i + 1 <= cnt ==> Le(cmp, s[2 * i], s[i / 2 - 1]))
  }

  function Swap<T>(s: seq<T>, i: nat, j: nat): seq<T>
    requires 1 <= i <= |s| && 1 <= j <= |s|
  {
    s[i - 1 := s[j - 1]][j - 1 := s[i - 1]]
  }

  lemma SwapItems<T>(s: seq<T>, i: nat, j: nat)
    requires 1 <= i <= |s| && 1 <= j <= |s|
    ensures multiset(Swap(s, i, j)) == multiset(s)
  {
  }

  /** Swapping node I with its larger child M moves the one place out of order down to M. */
  lemma FloatDown<T(!new)>(cmp: (T, T) -> int, s: seq<T>, lo: nat, cnt: nat, i: nat, m: nat)
    requires TotalPreorder(cmp) && 1 <= lo <= i && cnt <= |s| && HeapBut(cmp, s, lo, cnt, i)
    requires (m == 2 * i || m == 2 * i + 1) && m <= cnt && Le(cmp, s[i - 1], s[m - 1])
    requires 2 * i <= cnt ==> Le(cmp, s[2 * i - 1], s[m - 1])
    requires 2 * i + 1 <= cnt ==> Le(cmp, s[2 * i], s[m - 1])
    ensures HeapBut(cmp, Swap(s, i, m), lo, cnt, m)
  {
    hide TotalPreorder, Le;
    var t := Swap(s, i, m);
    forall p | lo <= p <= cnt && p != m ensures NodeOk(cmp, t, cnt, p) {
      if p != i {
        assert NodeOk(cmp, s, cnt, p);
      }
    }
    assert m / 2 == i;
    assert NodeOk(cmp, s, cnt, m);
  }

  lemma Total<T(!new)>(cmp: (T, T) -> int, x: T, y: T)
    requires TotalPreorder(cmp)
    ensures Le(cmp, x, y) || Le(cmp, y, x)
    ensures Le(cmp, x, x) && Le(cmp, y, y)
    ensures cmp(x, y) >= 0 ==> Le(cmp, y, x)
    ensures cmp(y, x) >= 0 ==> Le(cmp, x, y)
  {
    assert cmp(x, y) <= 0 <==> cmp(y, x) >= 0;
    assert cmp(y, x) <= 0 <==> cmp(x, y) >= 0;
    assert cmp(x, x) <= 0 <==> cmp(x, x) >= 0;
    assert cmp(y, y) <= 0 <==> cmp(y, y) >= 0;
  }

  /** The root of a heap is its maximum. */
  lemma {:induction false} RootIsMax<T(!new)>(cmp: (T, T) -> int, s: seq<T>, cnt: nat, k: nat)
    requires TotalPreorder(cmp) && cnt <= |s| && Heap(cmp, s, 1, cnt) && 1 <= k <= cnt
    ensures Le(cmp, s[k - 1], s[0])
  {
    if k == 1 {
      Total(cmp, s[0], s[0]);
    } else {
      RootIsMax(cmp, s, cnt, k / 2);
      assert NodeOk(cmp, s, cnt, k / 2);
      assert k == 2 * (k / 2) || k == 2 * (k / 2) + 1;
      assert Le(cmp, s[k - 1], s[k / 2 - 1]);
    }
  }

  // ---------- sorting ----------

  /** The nodes from CNT + 1 on are in order, and no smaller than any node before them. */
  ghost predicate Tail<T>(cmp: (T, T) -> int, s: seq<T>, cnt: nat)
    requires cnt <= |s|
  {
    forall i, j :: 0 <= i < j < |s| && cnt <= j ==> Le(cmp, s[i], s[j])
  }

  /** A rearrangement of the first CNT elements. */
  ghost predicate Rearranged<T>(s: seq<T>, t: seq<T>, cnt: nat)
    requires cnt <= |s|
  {
    |t| == |s| && t[cnt..] == s[cnt..] && multiset(t) == multiset(s)
  }

  lemma FromPrefix<T>(s: seq<T>, t: seq<T>, cnt: nat, i: nat) returns (k: nat)
    requires cnt <= |s| && Rearranged(s, t, cnt) && i < cnt
    ensures k < cnt && s[k] == t[i]
  {
    assert s == s[..cnt] + s[cnt..] && t == t[..cnt] + t[cnt..];
    assert multiset(s) == multiset(s[..cnt]) + multiset(s[cnt..]);
    assert multiset(t) == multiset(t[..cnt]) + multiset(s[cnt..]);
    assert multiset(s) - multiset(s[cnt..]) == multiset(s[..cnt]);
    assert multiset(t) - multiset(s[cnt..]) == multiset(t[..cnt]);
    assert t[i] == t[..cnt][i];
    assert t[i] in multiset(t[..cnt]);
    var w := s[..cnt];
    assert t[i] in w;
    k :| 0 <= k < |w| && w[k] == t[i];
  }

  lemma TailKept<T(!new)>(cmp: (T, T) -> int, s: seq<T>, t: seq<T>, cnt: nat)
    requires cnt <= |s| && Rearranged(s, t, cnt) && Tail(cmp, s, cnt)
    ensures Tail(cmp, t, cnt)
  {
    forall i, j | 0 <= i < j < |t| && cnt <= j ensures Le(cmp, t[i], t[j]) {
      assert t[j] == t[cnt..][j - cnt] == s[cnt..][j - cnt] == s[j];
      if i < cnt {
        var k := FromPrefix(s, t, cnt, i);
      } else {
        assert t[i] == t[cnt..][i - cnt] == s[cnt..][i - cnt] == s[i];
      }
    }
  }

  /** Moving the root behind the heap leaves a shorter heap, but for its root, and a longer tail. */
  lemma TakeMax<T(!new)>(cmp: (T, T) -> int, s: seq<T>, cnt: nat)
    requires TotalPreorder(cmp) && 2 <= cnt <= |s| && Heap(cmp, s, 1, cnt) && Tail(cmp, s, cnt)
    ensures Heap(cmp, Swap(s, 1, cnt), 2, cnt - 1) && Tail(cmp, Swap(s, 1, cnt), cnt - 1)
  {
    hide TotalPreorder, Le;
    var t := Swap(s, 1, cnt);
    var n := cnt - 1;
    forall p | 2 <= p <= n ensures NodeOk(cmp, t, n, p) {
      assert NodeOk(cmp, s, cnt, p);
    }
    forall i, j | 0 <= i < j < |t| && cnt - 1 <= j ensures Le(cmp, t[i], t[j]) {
      if j == cnt - 1 {
        RootIsMax(cmp, s, cnt, if i == 0 then cnt else i + 1);
      } else {
        var k := if i == 0 then cnt - 1 else if i == cnt - 1 then 0 else i;
        assert t[i] == s[k] && t[j] == s[j];
      }
    }
  }

  method DoSwap<T>(a: array<T>, i: nat, j: nat)
    requires 1 <= i <= a.Length && 1 <= j <= a.Length
    modifies a
    ensures a[..] == Swap(old(a[..]), i, j) && multiset(a[..]) == multiset(old(a[..]))
  {
    SwapItems(a[..], i, j);
    a[i - 1], a[j - 1] := a[j - 1], a[i - 1];
    assert a[..] == Swap(old(a[..]), i, j);
  }

  /** heapify: floats element LO down until the nodes from LO on are a heap. */
  method Heapify<T(!new)>(a: array<T>, lo: nat, cnt: nat, cmp: (T, T) -> int)
    requires TotalPreorder(cmp) && 1 <= lo <= cnt <= a.Length && Heap(cmp, a[..], lo + 1, cnt)
    modifies a
    ensures Heap(cmp, a[..], lo, cnt) && Rearranged(old(a[..]), a[..], cnt)
  {
    hide NodeOk, TotalPreorder;
    var i := lo;
    while true
      invariant lo <= i <= cnt && HeapBut(cmp, a[..], lo, cnt, i) && Rearranged(old(a[..]), a[..], cnt)
      decreases cnt - i
    {
      var left, right, max := 2 * i, 2 * i + 1, i;
      if left <= cnt && cmp(a[left - 1], a[max - 1]) > 0 {
        max := left;
      }
      if right <= cnt && cmp(a[right - 1], a[max - 1]) > 0 {
        max := right;
      }
      MaxOfThree(cmp, a[..], cnt, i, max);
      if max == i {
        break;
      }
      FloatDown(cmp, a[..], lo, cnt, i, max);
      SwapPrefix(a[..], i, max, cnt);
      DoSwap(a, i, max);
      i := max;
    }
  }

  lemma SwapPrefix<T>(s: seq<T>, i: nat, j: nat, cnt: nat)
    requires 1 <= i <= cnt && 1 <= j <= cnt <= |s|
    ensures Swap(s, i, j)[cnt..] == s[cnt..]
  {
  }

  /** heapify's choice is the largest of node I and its children. */
  lemma MaxOfThree<T(!new)>(cmp: (T, T) -> int, s: seq<T>, cnt: nat, i: nat, max: nat)
    requires TotalPreorder(cmp) && 1 <= i <= cnt <= |s|
    requires var l := if 2 * i <= cnt && cmp(s[2 * i - 1], s[i - 1]) > 0 then 2 * i else i;
             max == if 2 * i + 1 <= cnt && cmp(s[2 * i], s[l - 1]) > 0 then 2 * i + 1 else l
    ensures i <= max <= cnt && Le(cmp, s[i - 1], s[max - 1])
    ensures 2 * i <= cnt ==> Le(cmp, s[2 * i - 1], s[max - 1])
    ensures 2 * i + 1 <= cnt ==> Le(cmp, s[2 * i], s[max - 1])
    ensures max == i ==> NodeOk(cmp, s, cnt, i)
  {
    var l := if 2 * i <= cnt && cmp(s[2 * i - 1], s[i - 1]) > 0 then 2 * i else i;
    Total(cmp, s[i - 1], s[l - 1]);
    Total(cmp, s[max - 1], s[l - 1]);
    assert Le(cmp, s[i - 1], s[l - 1]) && Le(cmp, s[l - 1], s[max - 1]);
  }

  /** sort. */
  method Sort<T(!new)>(a: array<T>, cmp: (T, T) -> int)
    requires TotalPreorder(cmp)
    modifies a
    ensures Sorted(cmp, a[..]) && multiset(a[..]) == multiset(old(a[..]))
  {
    hide NodeOk, TotalPreorder, Heap, Tail, Sorted, Swap;
    var cnt := a.Length;
    var i := cnt / 2;
    LeavesOk(cmp, a[..], cnt);
    while i > 0
      invariant 0 <= i <= cnt / 2 && Heap(cmp, a[..], i + 1, cnt) && multiset(a[..]) == multiset(old(a[..]))
    {
      Heapify(a, i, cnt, cmp);
      i := i - 1;
    }
    i := cnt;
    TailStart(cmp, a[..]);
    while i > 1
      invariant 0 <= i <= cnt && Heap(cmp, a[..], 1, i) && Tail(cmp, a[..], i) && multiset(a[..]) == multiset(old(a[..]))
    {
      TakeMax(cmp, a[..], i);
      SwapItems(a[..], 1, i);
      DoSwap(a, 1, i);
      ghost var s := a[..];
      Heapify(a, 1, i - 1, cmp);
      TailKept(cmp, s, a[..], i - 1);
      i := i - 1;
    }
    TailEnd(cmp, a[..], i);
  }

  lemma TailStart<T>(cmp: (T, T) -> int, s: seq<T>)
    ensures Tail(cmp, s, |s|)
  {
  }

  lemma TailEnd<T>(cmp: (T, T) -> int, s: seq<T>, i: nat)
    requires i <= 1 && i <= |s| && Tail(cmp, s, i)
    ensures Sorted(cmp, s)
  {
  }

  lemma LeavesOk<T(!new)>(cmp: (T, T) -> int, s: seq<T>, cnt: nat)
    requires cnt == |s|
    ensures Heap(cmp, s, cnt / 2 + 1, cnt)
  {
  }

  // ---------- searching ----------

  /** Along S the comparison with KEY, which may be of another type, changes sign at most once each way. */
  ghost predicate Splits<K, T>(cmp: (K, T) -> int, s: seq<T>, key: K) {
    forall i, j :: 0 <= i <= j < |s| ==>
      && (cmp(key, s[i]) < 0 ==> cmp(key, s[j]) < 0)
      && (cmp(key, s[j]) > 0 ==> cmp(key, s[i]) > 0)
  }

  /** A sorted sequence is one, for any key of its own type. */
  lemma KeySplits<T(!new)>(cmp: (T, T) -> int, s: seq<T>, key: T)
    requires TotalPreorder(cmp) && Sorted(cmp, s)
    ensures Splits(cmp, s, key)
  {
    forall i, j | 0 <= i <= j < |s|
      ensures cmp(key, s[i]) < 0 ==> cmp(key, s[j]) < 0
      ensures cmp(key, s[j]) > 0 ==> cmp(key, s[i]) > 0 {
      if i < j {
        assert Le(cmp, s[i], s[j]);
        KeyBetween(cmp, s[i], s[j], key);
      }
    }
  }

  lemma KeyBetween<T(!new)>(cmp: (T, T) -> int, x: T, y: T, key: T)
    requires TotalPreorder(cmp) && Le(cmp, x, y)
    ensures cmp(key, x) < 0 ==> cmp(key, y) < 0
    ensures cmp(key, y) > 0 ==> cmp(key, x) > 0
  {
    assert cmp(key, x) <= 0 <==> cmp(x, key) >= 0;
    assert cmp(key, y) <= 0 <==> cmp(y, key) >= 0;
    assert cmp(y, key) <= 0 <==> cmp(key, y) >= 0;
    assert cmp(x, key) <= 0 <==> cmp(key, x) >= 0;
    assert Le(cmp, y, key) ==> Le(cmp, x, key);
    assert Le(cmp, key, x) ==> Le(cmp, key, y);
  }

  /** binary_search: a match if there is one, else null. */
  method BinarySearch<K, T>(key: K, a: array<T>, cmp: (K, T) -> int) returns (r: Option<nat>)
    requires Splits(cmp, a[..], key)
    ensures r.Some? ==> r.value < a.Length && cmp(key, a[r.value]) == 0
    ensures r.None? <==> forall i :: 0 <= i < a.Length ==> cmp(key, a[i]) != 0
  {
    var first, last := 0, a.Length;
    while first < last
      invariant 0 <= first <= last <= a.Length
      invariant forall i :: 0 <= i < a.Length && !(first <= i < last) ==> cmp(key, a[i]) != 0
    {
      var range := last - first;
      var middle := first + range / 2;
      var c := cmp(key, a[middle]);
      assert forall i :: 0 <= i < a.Length ==> a[..][i] == a[i];
      if c < 0 {
        last := middle;
      } else if c > 0 {
        first := middle + 1;
      } else {
        return Some(middle);
      }
    }
    return None;
  }
}
