/** The chained hash table of lib/kernel/hash.c: a power-of-two array of buckets that behaves as a finite
    set modulo key equality, through rehashing and its allocation failures. */
module HashTable {
  import opened Basics

  // ---------- bit tricks ----------

  /** x & y */
  function BitAnd(x: nat, y: nat): (r: nat)
    ensures r <= x && r <= y
  {
    if x == 0 || y == 0 then 0 else (x % 2) * (y % 2) + 2 * BitAnd(x / 2, y / 2)
  }

  predicate IsPow2(n: nat) { n == 1 || (n > 1 && n % 2 == 0 && IsPow2(n / 2)) }

  /** turn_off_least_1bit. */
  function TurnOffLeast1Bit(x: nat): nat
    requires x > 0
  {
    BitAnd(x, x - 1)
  }

  /** is_power_of_2. */
  predicate IsPowerOf2(x: nat) { x != 0 && TurnOffLeast1Bit(x) == 0 }

  /** The largest power of two that is at most X. */
  function Floor2(x: nat): (r: nat)
    requires x > 0
    ensures IsPow2(r) && r <= x < 2 * r
  {
    if x == 1 then 1 else 2 * Floor2(x / 2)
  }

  /** No power of two lies between Floor2(x) and x. */
  lemma {:induction false} Floor2Largest(x: nat, p: nat)
    requires x > 0 && IsPow2(p) && p <= x
    ensures p <= Floor2(x)
  {
    if x > 1 && p > 1 {
      Floor2Largest(x / 2, p / 2);
    }
  }

  lemma {:induction false} AndSelf(x: nat)
    ensures BitAnd(x, x) == x
  {
    if x > 0 { AndSelf(x / 2); }
  }

  /** Clearing the lowest set bit gives 0 exactly for powers of two, and otherwise stays above the largest
      power of two below. */
  lemma {:induction false} ClearBit(x: nat)
    requires x > 0
    ensures TurnOffLeast1Bit(x) < x
    ensures TurnOffLeast1Bit(x) == 0 <==> IsPow2(x)
    ensures TurnOffLeast1Bit(x) > 0 ==> Floor2(TurnOffLeast1Bit(x)) == Floor2(x)
  {
    hide TurnOffLeast1Bit, BitAnd, Floor2, IsPow2;
    var h := x / 2;
    PowParts(x);
    if x % 2 == 1 {
      ClearOdd(x);
      if h > 0 { FloorDouble(h); }
    } else {
      ClearBit(h);
      ClearEven(x);
      var y := TurnOffLeast1Bit(h);
      if y > 0 { FloorDouble(y); }
    }
  }

  lemma PowParts(x: nat)
    requires x > 0
    ensures IsPow2(x) <==> x == 1 || (x % 2 == 0 && IsPow2(x / 2))
    ensures x > 1 ==> Floor2(x) == 2 * Floor2(x / 2)
  {
  }

  lemma FloorDouble(y: nat)
    requires y > 0
    ensures Floor2(2 * y) == 2 * Floor2(y)
  {
    assert 2 * y / 2 == y;
  }

  lemma ClearOdd(x: nat)
    requires x % 2 == 1
    ensures TurnOffLeast1Bit(x) == 2 * (x / 2)
  {
    AndSelf(x / 2);
    assert (x - 1) / 2 == x / 2 && (x - 1) % 2 == 0;
  }

  lemma ClearEven(x: nat)
    requires x > 0 && x % 2 == 0
    ensures TurnOffLeast1Bit(x) == 2 * TurnOffLeast1Bit(x / 2)
  {
    assert (x - 1) / 2 == x / 2 - 1 && (x - 1) % 2 == 1;
  }

  /** For a power of two, masking with N - 1 is the remainder. */
  lemma {:induction false} MaskIsMod(x: nat, n: nat)
    requires IsPow2(n)
    ensures BitAnd(x, n - 1) == x % n && BitAnd(x, n - 1) < n
  {
    hide BitAnd;
    if n == 1 || x == 0 {
      AndZero(x, n - 1);
    } else {
      MaskIsMod(x / 2, n / 2);
      AndOdd(x, n / 2);
      HalfMod(x, n / 2);
    }
  }

  lemma AndZero(x: nat, y: nat)
    requires x == 0 || y == 0
    ensures BitAnd(x, y) == 0
  {
  }

  lemma AndOdd(x: nat, h: nat)
    requires x > 0 && h > 0
    ensures BitAnd(x, 2 * h - 1) == x % 2 + 2 * BitAnd(x / 2, h - 1)
  {
    assert (2 * h - 1) / 2 == h - 1 && (2 * h - 1) % 2 == 1;
  }

  lemma HalfMod(x: nat, h: nat)
    requires h > 0
    ensures x % (2 * h) == x % 2 + 2 * (x / 2 % h)
  {
    var y := x / 2;
    var q, r := y / h, y % h;
    assert y == q * h + r;
    assert x == q * (2 * h) + (2 * r + x % 2);
    ModUnique(x, 2 * h, q, 2 * r + x % 2);
  }

  lemma ModUnique(x: nat, n: nat, q: nat, r: nat)
    requires n > 0 && x == q * n + r && r < n
    ensures x % n == r
  {
    var p := x / n;
    assert x == p * n + x % n;
    assert p < q ==> (p + 1) * n <= q * n;
    assert p > q ==> (q + 1) * n <= p * n;
  }

  // ---------- buckets holding a set ----------

  /** The caller's functions: elements are the same key when neither is less, and then hash alike. */
  ghost predicate Keyed<E(!new)>(hash: E -> nat, less: (E, E) -> bool) {
    && (forall x :: !less(x, x))
    && (forall x, y, z :: Same(less, x, y) && Same(less, y, z) ==> Same(less, x, z))
    && (forall x, y :: Same(less, x, y) ==> hash(x) == hash(y))
  }

  predicate Same<E>(less: (E, E) -> bool, x: E, y: E) { !less(x, y) && !less(y, x) }

  /** The bucket find_bucket picks among N. */
  function Index<E>(hash: E -> nat, n: nat, x: E): nat
    requires n > 0
  {
    BitAnd(hash(x), n - 1)
  }

  /** No two elements of a bucket are the same key. */
  ghost predicate Unlike<E(!new)>(less: (E, E) -> bool, w: seq<E>) {
    forall i, j :: 0 <= i < j < |w| ==> !Same(less, w[i], w[j])
  }

  /** The buckets hold the elements of S, each in the bucket of its hash. */
  ghost predicate Holds<E(!new)>(hash: E -> nat, less: (E, E) -> bool, b: seq<seq<E>>, s: set<E>) {
    && IsPow2(|b|)
    && (forall i :: 0 <= i < |b| ==> Unlike(less, b[i]))
    && (forall i, x :: 0 <= i < |b| && x in b[i] ==> x in s && Index(hash, |b|, x) == i)
    && (forall x :: x in s ==> Index(hash, |b|, x) < |b| && x in b[Index(hash, |b|, x)])
  }

  /** No two elements of the set are the same key. */
  ghost predicate Apart<E(!new)>(less: (E, E) -> bool, s: set<E>) {
    forall x, y :: x in s && y in s && Same(less, x, y) ==> x == y
  }

  lemma HoldsApart<E(!new)>(hash: E -> nat, less: (E, E) -> bool, b: seq<seq<E>>, s: set<E>)
    requires Keyed(hash, less) && Holds(hash, less, b, s)
    ensures Apart(less, s)
  {
    forall x, y | x in s && y in s && Same(less, x, y) ensures x == y {
      var w := b[Index(hash, |b|, x)];
      var i :| 0 <= i < |w| && w[i] == x;
      var j :| 0 <= j < |w| && w[j] == y;
      assert Same(less, w[j], w[i]) && Same(less, w[i], w[j]);
    }
  }

  function Push<E>(b: seq<seq<E>>, i: nat, x: E): seq<seq<E>>
    requires i < |b|
  {
    b[i := [x] + b[i]]
  }

  function Take<E>(b: seq<seq<E>>, i: nat, k: nat): seq<seq<E>>
    requires i < |b| && k < |b[i]|
  {
    b[i := b[i][..k] + b[i][k + 1..]]
  }

  /** Pushing an element with a new key adds it to the set. */
  lemma HoldsPush<E(!new)>(hash: E -> nat, less: (E, E) -> bool, b: seq<seq<E>>, s: set<E>, x: E)
    requires Holds(hash, less, b, s) && forall y :: y in s ==> !Same(less, y, x)
    ensures Index(hash, |b|, x) < |b| && Holds(hash, less, Push(b, Index(hash, |b|, x), x), s + {x})
  {
    hide BitAnd;
    MaskIsMod(hash(x), |b|);
    var i := Index(hash, |b|, x);
    var c := Push(b, i, x);
    forall j | 0 <= j < |c| ensures Unlike(less, c[j]) {
      if j == i {
        forall p, q | 0 <= p < q < |c[i]| ensures !Same(less, c[i][p], c[i][q]) {
          assert c[i][q] == b[i][q - 1] && c[i][q] in b[i];
          assert p > 0 ==> c[i][p] == b[i][p - 1];
          assert !Same(less, c[i][q], x);
        }
      }
    }
  }

  /** Taking an element out of its bucket takes it out of the set. */
  lemma HoldsTake<E(!new)>(hash: E -> nat, less: (E, E) -> bool, b: seq<seq<E>>, s: set<E>, i: nat, k: nat)
    requires Keyed(hash, less) && Holds(hash, less, b, s) && i < |b| && k < |b[i]|
    ensures b[i][k] in s && Holds(hash, less, Take(b, i, k), s - {b[i][k]})
  {
    hide BitAnd, Same, Keyed;
    var x := b[i][k];
    var c := Take(b, i, k);
    TakeUnlike(hash, less, b[i], k);
    assert x in b[i];
    hide Unlike;
    forall j, y | 0 <= j < |c| && y in c[j] ensures y in s && y != x && Index(hash, |b|, y) == j {
      assert y in b[j];
    }
    forall y | y in s && y != x ensures y in c[Index(hash, |b|, y)] {
    }
  }

  lemma Distinct<E(!new)>(hash: E -> nat, less: (E, E) -> bool, w: seq<E>, i: nat, j: nat)
    requires Keyed(hash, less) && Unlike(less, w) && i < j < |w|
    ensures w[i] != w[j]
  {
    assert !Same(less, w[i], w[j]);
    assert Same(less, w[i], w[i]);
  }

  lemma TakeUnlike<E(!new)>(hash: E -> nat, less: (E, E) -> bool, w: seq<E>, k: nat)
    requires Keyed(hash, less) && Unlike(less, w) && k < |w|
    ensures var v := w[..k] + w[k + 1..];
            Unlike(less, v) && forall y :: y in v <==> y in w && y != w[k]
  {
    var v := w[..k] + w[k + 1..];
    forall p, q | 0 <= p < q < |v| ensures !Same(less, v[p], v[q]) {
      assert v[p] == w[if p < k then p else p + 1] && v[q] == w[if q < k then q else q + 1];
    }
    forall y ensures y in v <==> y in w && y != w[k] {
      if y in w && y != w[k] {
        var p :| 0 <= p < |w| && w[p] == y;
        assert y == v[if p < k then p else p - 1];
      }
      if y in v {
        var p :| 0 <= p < |v| && v[p] == y;
        var q := if p < k then p else p + 1;
        assert y == w[q] && q != k;
        Distinct(hash, less, w, if q < k then q else k, if q < k then k else q);
      }
    }
  }

  // ---------- looking up ----------

  /** R is the element of S with E's key, if there is one. */
  ghost predicate Lookup<E(!new)>(less: (E, E) -> bool, s: set<E>, e: E, r: Option<E>) {
    match r
    case None => forall y :: y in s ==> !Same(less, y, e)
    case Some(x) => x in s && Same(less, x, e)
  }

  /** The element with a key is the only one, so a lookup has one answer. */
  lemma LookupUnique<E(!new)>(hash: E -> nat, less: (E, E) -> bool, s: set<E>, e: E, q: Option<E>, r: Option<E>)
    requires Keyed(hash, less) && Apart(less, s) && Lookup(less, s, e, q) && Lookup(less, s, e, r)
    ensures q == r
  {
    if q.Some? && r.Some? {
      assert Same(less, e, r.value);
      assert Same(less, q.value, r.value);
    }
  }

  /** If E's bucket has no element with E's key, the table has none. */
  lemma NotInBucket<E(!new)>(hash: E -> nat, less: (E, E) -> bool, b: seq<seq<E>>, s: set<E>, e: E)
    requires Keyed(hash, less) && Holds(hash, less, b, s) && Index(hash, |b|, e) < |b|
    requires forall y :: y in b[Index(hash, |b|, e)] ==> !Same(less, y, e)
    ensures forall y :: y in s ==> !Same(less, y, e)
  {
    hide BitAnd, Unlike;
    forall y | y in s ensures !Same(less, y, e) {
      assert Same(less, y, e) ==> hash(y) == hash(e);
    }
  }

  lemma BucketIndex<E(!new)>(hash: E -> nat, less: (E, E) -> bool, b: seq<seq<E>>, s: set<E>, e: E)
    requires Holds(hash, less, b, s)
    ensures Index(hash, |b|, e) < |b|
  {
    MaskIsMod(hash(e), |b|);
  }

  // ---------- iterating ----------

  /** The elements from bucket I on, in the order of the buckets. */
  function Flat<E>(b: seq<seq<E>>, i: nat): seq<E>
    decreases |b| - i
  {
    if i >= |b| then [] else b[i] + Flat(b, i + 1)
  }

  lemma {:induction false} InFlat<E(!new)>(b: seq<seq<E>>, i: nat, x: E)
    ensures x in Flat(b, i) <==> exists k :: i <= k < |b| && x in b[k]
    decreases |b| - i
  {
    hide Flat;
    FlatStep(b, i);
    if i < |b| {
      InFlat(b, i + 1, x);
      InFirst(b, i, x);
    }
  }

  lemma InFirst<E(!new)>(b: seq<seq<E>>, i: nat, x: E)
    requires i < |b|
    ensures (exists k :: i <= k < |b| && x in b[k]) <==> x in b[i] || exists k :: i + 1 <= k < |b| && x in b[k]
  {
  }

  lemma UnlikeNoDup<E(!new)>(hash: E -> nat, less: (E, E) -> bool, w: seq<E>)
    requires Keyed(hash, less) && Unlike(less, w)
    ensures NoDup(w)
  {
    forall i, j | 0 <= i < j < |w| ensures w[i] != w[j] {
      Distinct(hash, less, w, i, j);
    }
  }

  lemma {:induction false} FlatNoDup<E(!new)>(hash: E -> nat, less: (E, E) -> bool, b: seq<seq<E>>, s: set<E>, i: nat)
    requires Keyed(hash, less) && Holds(hash, less, b, s)
    ensures NoDup(Flat(b, i))
    decreases |b| - i
  {
    hide Keyed, Index, Unlike, Flat, NoDup;
    FlatStep(b, i);
    if i >= |b| {
      assert NoDup<E>([]) by { NoneTwice<E>(); }
    } else {
      FlatNoDup(hash, less, b, s, i + 1);
      UnlikeNoDup(hash, less, b[i]);
      forall x | x in b[i] ensures x !in Flat(b, i + 1) {
        InFlat(b, i + 1, x);
        assert Index(hash, |b|, x) == i;
      }
      JoinApart(b[i], Flat(b, i + 1));
    }
  }

  lemma NoneTwice<E>()
    ensures NoDup<E>([])
  {
  }

  /** Going through all buckets meets each element of the set exactly once. */
  lemma FlatOnce<E(!new)>(hash: E -> nat, less: (E, E) -> bool, b: seq<seq<E>>, s: set<E>)
    requires Keyed(hash, less) && Holds(hash, less, b, s)
    ensures NoDup(Flat(b, 0)) && (forall x :: x in Flat(b, 0) <==> x in s) && |Flat(b, 0)| == |s|
  {
    hide Keyed, Unlike, Flat;
    FlatNoDup(hash, less, b, s, 0);
    forall x ensures x in Flat(b, 0) <==> x in s {
      InFlat(b, 0, x);
    }
    hide Holds;
    CountDistinct(Flat(b, 0), s);
  }

  lemma {:induction false} CountDistinct<E>(w: seq<E>, s: set<E>)
    requires NoDup(w) && forall x :: x in w <==> x in s
    ensures |w| == |s|
  {
    if |w| == 0 {
      assert s == {};
    } else {
      TailNoDup(w);
      assert w[0] in w;
      CountDistinct(w[1..], s - {w[0]});
    }
  }

  // ---------- the bucket count ----------

  /** The bucket count rehash aims at: a power of two, at least 4, for about two elements a bucket. */
  function BestCount(n: nat): (r: nat)
    ensures IsPow2(r) && r >= 4 && (n >= 8 ==> r <= n / 2 < 2 * r)
  {
    if n / 2 < 4 then 4 else assert 4 <= Floor2(n / 2) by { Floor2Largest(n / 2, 4); } Floor2(n / 2)
  }

  /** rehash's loop clears low bits until a single one is left. */
  method NewCount(elemCnt: nat) returns (c: nat)
    ensures c == BestCount(elemCnt)
  {
    hide TurnOffLeast1Bit, Floor2;
    c := elemCnt / 2;
    if c < 4 {
      c := 4;
    }
    ghost var start := c;
    Floor2Four();
    while !IsPowerOf2(c)
      invariant c > 0 && Floor2(c) == Floor2(start)
      decreases c
    {
      ClearBit(c);
      c := TurnOffLeast1Bit(c);
    }
    ClearBit(c);
    Floor2Largest(c, c);
  }

  lemma Floor2Four()
    ensures Floor2(4) == 4
  {
  }

  // ---------- the table ----------

  class HashTable<E(==,!new)> {
    const hash: E -> nat
    const less: (E, E) -> bool
    var buckets: seq<seq<E>>
    var bucketCnt: nat
    var elemCnt: nat
    ghost var items: set<E>

    ghost predicate Valid()
      reads this
    {
      && Keyed(hash, less) && Holds(hash, less, buckets, items)
      && bucketCnt == |buckets| >= 4 && elemCnt == |items|
    }

    /** hash_init, with memory for the four buckets. */
    constructor (hash: E -> nat, less: (E, E) -> bool)
      requires Keyed(hash, less)
      ensures Valid() && items == {} && this.hash == hash && this.less == less
    {
      this.hash, this.less := hash, less;
      buckets, bucketCnt, elemCnt, items := [[], [], [], []], 4, 0, {};
    }

    /** find_elem: the position in bucket B of an element with E's key. */
    method FindElem(b: nat, e: E) returns (k: nat)
      requires b < |buckets|
      ensures k <= |buckets[b]| && (k < |buckets[b]| ==> Same(less, buckets[b][k], e))
      ensures forall j :: 0 <= j < k ==> !Same(less, buckets[b][j], e)
    {
      k := 0;
      while k < |buckets[b]|
        invariant k <= |buckets[b]| && forall j :: 0 <= j < k ==> !Same(less, buckets[b][j], e)
      {
        if !less(buckets[b][k], e) && !less(e, buckets[b][k]) {
          return;
        }
        k := k + 1;
      }
    }

    method Search(e: E) returns (b: nat, k: nat)
      requires Valid()
      ensures b < |buckets| && b == Index(hash, |buckets|, e) && k <= |buckets[b]|
      ensures k < |buckets[b]| ==> Lookup(less, items, e, Some(buckets[b][k]))
      ensures k == |buckets[b]| ==> Lookup(less, items, e, None)
    {
      hide BitAnd, Unlike, Keyed;
      BucketIndex(hash, less, buckets, items, e);
      b := Index(hash, bucketCnt, e);
      k := FindElem(b, e);
      if k == |buckets[b]| {
        NotInBucket(hash, less, buckets, items, e);
      } else {
        assert buckets[b][k] in buckets[b];
      }
    }

    /** hash_find. */
    method Find(e: E) returns (r: Option<E>)
      requires Valid()
      ensures Lookup(less, items, e, r)
    {
      hide Holds, Keyed, Lookup, Index;
      var b, k := Search(e);
      r := if k < |buckets[b]| then Some(buckets[b][k]) else None;
    }

    /** insert_elem, into the bucket of E. */
    method InsertElem(b: nat, e: E)
      requires Valid() && Lookup(less, items, e, None) && b == Index(hash, |buckets|, e) && b < |buckets|
      modifies this`buckets, this`elemCnt, this`items
      ensures Valid() && items == old(items) + {e}
    {
      hide Holds, Keyed, Index;
      HoldsPush(hash, less, buckets, items, e);
      assert e !in items by { Irreflexive(hash, less, e); }
      elemCnt := elemCnt + 1;
      buckets := buckets[b := [e] + buckets[b]];
      items := items + {e};
      assert buckets == Push(old(buckets), b, e);
    }

    /** remove_elem, for the element at position K of bucket B. */
    method RemoveElem(b: nat, k: nat)
      requires Valid() && b < |buckets| && k < |buckets[b]|
      modifies this`buckets, this`elemCnt, this`items
      ensures Valid() && old(buckets[b][k]) in old(items) && items == old(items) - {old(buckets[b][k])}
    {
      hide Holds, Keyed, Index;
      HoldsTake(hash, less, buckets, items, b, k);
      elemCnt := elemCnt - 1;
      items := items - {buckets[b][k]};
      buckets := buckets[b := buckets[b][..k] + buckets[b][k + 1..]];
      assert buckets == Take(old(buckets), b, k);
    }

    /** rehash; ALLOC says whether memory for new buckets is available. */
    method Rehash(alloc: bool)
      requires Valid()
      modifies this`buckets, this`bucketCnt
      ensures Valid()
      ensures bucketCnt == if alloc then BestCount(elemCnt) else old(bucketCnt)
    {
      hide Holds, Keyed;
      var newCnt := NewCount(elemCnt);
      if newCnt == bucketCnt || !alloc {
        return;
      }
      var newBuckets := seq(newCnt, _ => []);
      EmptyHolds(hash, less, newBuckets);
      newBuckets := MoveAll(newBuckets);
      buckets, bucketCnt := newBuckets, newCnt;
    }

    /** Moves each element to the front of its new bucket. */
    method MoveAll(empty: seq<seq<E>>) returns (b: seq<seq<E>>)
      requires Valid() && Holds(hash, less, empty, {})
      ensures |b| == |empty| && Holds(hash, less, b, items)
    {
      hide Holds, Keyed, Index;
      b := empty;
      var from := buckets;
      ghost var moved: set<E> := {};
      HoldsApart(hash, less, buckets, items);
      assert items - moved == items;
      var i := 0;
      while i < |from|
        invariant |from| == |buckets| && |b| == |empty| && 0 <= i <= |from| && moved <= items
        invariant Holds(hash, less, from, items - moved) && Holds(hash, less, b, moved)
        invariant forall j :: 0 <= j < i ==> from[j] == []
      {
        while from[i] != []
          invariant |from| == |buckets| && |b| == |empty| && moved <= items
          invariant Holds(hash, less, from, items - moved) && Holds(hash, less, b, moved)
          invariant forall j :: 0 <= j < i ==> from[j] == []
          decreases |from[i]|
        {
          var e := from[i][0];
          HoldsTake(hash, less, from, items - moved, i, 0);
          HoldsPush(hash, less, b, moved, e);
          assert from[i][..0] + from[i][1..] == from[i][1..];
          from := from[i := from[i][1..]];
          b := Push(b, Index(hash, |b|, e), e);
          moved := moved + {e};
          assert items - moved == items - (moved - {e}) - {e};
        }
        i := i + 1;
      }
      AllEmpty(hash, less, from, items - moved);
      assert moved == items;
    }

    /** hash_insert. */
    method Insert(e: E, alloc: bool) returns (r: Option<E>)
      requires Valid()
      modifies this
      ensures Valid() && Lookup(less, old(items), e, r)
      ensures items == if r == None then old(items) + {e} else old(items)
    {
      hide Holds, Keyed, Index;
      var b, k := Search(e);
      if k < |buckets[b]| {
        r := Some(buckets[b][k]);
      } else {
        r := None;
        InsertElem(b, e);
      }
      Rehash(alloc);
    }

    /** hash_replace. */
    method Replace(e: E, alloc: bool) returns (r: Option<E>)
      requires Valid()
      modifies this
      ensures Valid() && Lookup(less, old(items), e, r)
      ensures items == (if r == None then old(items) else old(items) - {r.value}) + {e}
    {
      hide Holds, Keyed, Index, Same;
      HoldsApart(hash, less, buckets, items);
      var b, k := Search(e);
      r := None;
      if k < |buckets[b]| {
        r := Some(buckets[b][k]);
        OnlyOne(hash, less, items, e, buckets[b][k]);
        RemoveElem(b, k);
      }
      InsertElem(b, e);
      Rehash(alloc);
    }

    /** hash_delete. */
    method Delete(e: E, alloc: bool) returns (r: Option<E>)
      requires Valid()
      modifies this
      ensures Valid() && Lookup(less, old(items), e, r)
      ensures items == if r == None then old(items) else old(items) - {r.value}
    {
      hide Holds, Keyed, Index;
      var b, k := Search(e);
      r := None;
      if k < |buckets[b]| {
        r := Some(buckets[b][k]);
        RemoveElem(b, k);
        Rehash(alloc);
      }
    }

    /** hash_clear: DESTROYED are the arguments of the destructor calls, if there is a destructor. */
    method Clear(destructor: bool) returns (destroyed: seq<E>)
      requires Valid()
      modifies this`buckets, this`elemCnt, this`items
      ensures Valid() && items == {} && |buckets| == old(|buckets|)
      ensures destroyed == if destructor then Flat(old(buckets), 0) else []
    {
      hide Holds, Keyed, Index, Flat;
      HoldsSize(hash, less, buckets, items);
      destroyed := [];
      ghost var b := buckets;
      var i := 0;
      while i < bucketCnt
        invariant 0 <= i <= bucketCnt == |buckets| == |b| && IsPow2(|buckets|) && Keyed(hash, less)
        invariant forall j :: i <= j < |b| ==> buckets[j] == b[j]
        invariant forall j :: 0 <= j < i ==> buckets[j] == []
        invariant destructor ==> destroyed + Flat(b, i) == Flat(b, 0)
        invariant !destructor ==> destroyed == []
      {
        FlatStep(b, i);
        if destructor {
          ghost var d := destroyed;
          while buckets[i] != []
            invariant |buckets| == |b| && forall j :: i < j < |b| ==> buckets[j] == b[j]
            invariant forall j :: 0 <= j < i ==> buckets[j] == []
            invariant destroyed + buckets[i] == d + b[i]
            decreases |buckets[i]|
          {
            assert destroyed + buckets[i] == destroyed + [buckets[i][0]] + buckets[i][1..];
            destroyed := destroyed + [buckets[i][0]];
            buckets := buckets[i := buckets[i][1..]];
          }
          assert destroyed + [] == destroyed;
          assert destroyed + Flat(b, i + 1) == d + Flat(b, i);
        }
        buckets := buckets[i := []];
        i := i + 1;
      }
      FlatStep(b, i);
      assert destroyed + [] == destroyed;
      EmptyHolds(hash, less, buckets);
      elemCnt, items := 0, {};
    }
  }

  lemma FromStart<E>(b: seq<seq<E>>)
    requires |b| > 0
    ensures From(b, 0, 0) == Flat(b, 0)
  {
    assert b[0][0..] == b[0];
  }

  lemma NextBucket<E>(b: seq<seq<E>>, i: nat)
    requires i < |b|
    ensures From(b, i, |b[i]|) == if i + 1 < |b| then From(b, i + 1, 0) else []
  {
    if i + 1 < |b| { assert b[i + 1][0..] == b[i + 1]; }
  }

  lemma TakeFirst<E>(b: seq<seq<E>>, i: nat, p: nat)
    requires i < |b| && p < |b[i]|
    ensures var t := From(b, i, p); t != [] && t[0] == b[i][p] && t[1..] == From(b, i, p + 1)
  {
  }

  lemma FlatStep<E>(b: seq<seq<E>>, i: nat)
    ensures Flat(b, i) == if i >= |b| then [] else b[i] + Flat(b, i + 1)
  {
  }

  lemma HoldsSize<E(!new)>(hash: E -> nat, less: (E, E) -> bool, b: seq<seq<E>>, s: set<E>)
    requires Holds(hash, less, b, s)
    ensures IsPow2(|b|)
  {
  }

  lemma EmptyHolds<E(!new)>(hash: E -> nat, less: (E, E) -> bool, b: seq<seq<E>>)
    requires IsPow2(|b|) && forall i :: 0 <= i < |b| ==> b[i] == []
    ensures Holds(hash, less, b, {})
  {
    hide IsPow2;
  }

  lemma AllEmpty<E(!new)>(hash: E -> nat, less: (E, E) -> bool, b: seq<seq<E>>, s: set<E>)
    requires Holds(hash, less, b, s) && forall i :: 0 <= i < |b| ==> b[i] == []
    ensures s == {}
  {
    hide Unlike, IsPow2;
    assert forall x :: x !in s;
  }

  lemma OnlyOne<E(!new)>(hash: E -> nat, less: (E, E) -> bool, s: set<E>, e: E, x: E)
    requires Keyed(hash, less) && Apart(less, s) && Lookup(less, s, e, Some(x))
    ensures Lookup(less, s - {x}, e, None)
  {
    forall y | y in s && Same(less, y, e) ensures y == x {
      assert Same(less, e, x);
    }
  }

  lemma Irreflexive<E(!new)>(hash: E -> nat, less: (E, E) -> bool, e: E)
    requires Keyed(hash, less)
    ensures Same(less, e, e)
  {
  }

  /** The elements of bucket I from position P on, and those of the buckets behind it. */
  function From<E>(b: seq<seq<E>>, i: nat, p: nat): seq<E>
    requires i < |b| && p <= |b[i]|
  {
    b[i][p..] + Flat(b, i + 1)
  }

  /** hash_first and hash_next, over a table that is not changed meanwhile. */
  class HashIterator<E(==,!new)> {
    const table: HashTable<E>
    var bucket: nat
    var pos: int                // -1 stands for the list head
    var done: bool

    ghost predicate Valid()
      reads this, table
    {
      !done ==> bucket < |table.buckets| && -1 <= pos < |table.buckets[bucket]|
    }

    /** The elements the next calls return. */
    ghost function Rest(): seq<E>
      requires Valid()
      reads this, table
    {
      if done then [] else From(table.buckets, bucket, pos + 1)
    }

    /** hash_first. */
    constructor (table: HashTable<E>)
      requires table.Valid()
      ensures Valid() && !done && this.table == table && Rest() == Flat(table.buckets, 0)
    {
      this.table, bucket, pos, done := table, 0, -1, false;
      new;
      FromStart(table.buckets);
    }

    /** hash_next: returns the remaining elements one by one, then null. */
    method Next() returns (r: Option<E>)
      requires Valid() && table.Valid() && !done
      modifies this
      ensures Valid()
      ensures old(Rest()) == [] ==> r == None && done
      ensures old(Rest()) != [] ==> r == Some(old(Rest()[0])) && !done && Rest() == old(Rest()[1..])
    {
      hide Holds, Keyed, Flat, From;
      var b := table.buckets;
      pos := pos + 1;
      while pos == |b[bucket]|
        invariant bucket < |b| && 0 <= pos <= |b[bucket]| && !done
        invariant From(b, bucket, pos) == old(Rest())
        decreases |b| - bucket
      {
        NextBucket(b, bucket);
        bucket := bucket + 1;
        if bucket >= table.bucketCnt {
          done := true;
          return None;
        }
        pos := 0;
      }
      r := Some(b[bucket][pos]);
      TakeFirst(b, bucket, pos);
    }
  }

  /** hash_init: MEMORY says whether the first buckets can be allocated; null stands for failure. */
  method HashInit<E(==,!new)>(hash: E -> nat, less: (E, E) -> bool, memory: bool) returns (h: HashTable?<E>)
    requires Keyed(hash, less)
    ensures h == null <==> !memory
    ensures h != null ==> h.Valid() && h.items == {} && h.hash == hash && h.less == less
  {
    h := null;
    if memory {
      h := new HashTable(hash, less);
    }
  }
}
