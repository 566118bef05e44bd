/** The in-memory FAT (filesys/fat.c): the cluster table, next-fit search, chain growth and removal.
    The table is an array; the chains it encodes are a ghost map from head cluster to cluster list. */
module Fat {
  import opened Basics

  const EOCHAIN: nat := 0x0FFF_FFFF
  const ROOT_DIR_CLUSTER: nat := 1

  type Table = seq<nat>
  type Chains = map<nat, seq<nat>>

  // ---------- what the table means ----------

  /** C is a path through the table from its first cluster to an end-of-chain mark. */
  ghost predicate Linked(fat: Table, c: seq<nat>) {
    && |c| > 0
    && (forall i :: 0 <= i < |c| ==> 2 <= c[i] < |fat|)
    && (forall i :: 0 <= i < |c| - 1 ==> fat[c[i]] == c[i + 1])
    && fat[c[|c| - 1]] == EOCHAIN
  }

  ghost predicate Apart(c: seq<nat>, d: seq<nat>) {
    forall x :: x in c ==> x !in d
  }

  ghost predicate OnChain(chains: Chains, x: nat) {
    exists h :: h in chains && x in chains[h]
  }

  ghost predicate AllLinked(fat: Table, chains: Chains) {
    forall h :: h in chains ==> Linked(fat, chains[h]) && chains[h][0] == h
  }

  ghost predicate AllApart(chains: Chains) {
    && (forall h :: h in chains ==> NoDup(chains[h]))
    && (forall h, g :: h in chains && g in chains && h != g ==> Apart(chains[h], chains[g]))
  }

  ghost predicate Covered(fat: Table, chains: Chains) {
    forall x {:trigger OnChain(chains, x)} :: 2 <= x < |fat| && fat[x] != 0 ==> OnChain(chains, x)
  }

  /** The table is exactly a set of disjoint, acyclic chains; every other data cluster is free. */
  ghost predicate WellFormed(fat: Table, chains: Chains) {
    && 2 < |fat| <= EOCHAIN
    && AllLinked(fat, chains)
    && AllApart(chains)
    && Covered(fat, chains)
  }

  lemma PathIsUsed(fat: Table, c: seq<nat>, x: nat)
    requires Linked(fat, c) && x in c && |fat| <= EOCHAIN
    ensures 2 <= x < |fat| && fat[x] != 0
  {
    var i :| 0 <= i < |c| && c[i] == x;
    if i < |c| - 1 {
      assert fat[c[i]] == c[i + 1];
    }
  }

  lemma FreeIsOffChain(fat: Table, chains: Chains, x: nat)
    requires |fat| <= EOCHAIN && AllLinked(fat, chains)
    requires x < |fat| && fat[x] == 0
    ensures forall h :: h in chains ==> x !in chains[h]
  {
    hide Linked;
    forall h | h in chains ensures x !in chains[h] {
      if x in chains[h] {
        PathIsUsed(fat, chains[h], x);
      }
    }
  }

  /** The ghost chains are no extra information: the table determines them. */
  lemma ChainsUnique(fat: Table, a: Chains, b: Chains)
    requires WellFormed(fat, a) && WellFormed(fat, b)
    ensures a == b
  {
    hide Linked, AllApart, Covered;
    HeadsIncluded(fat, a, b);
    HeadsIncluded(fat, b, a);
    forall h | h in a ensures h in b && a[h] == b[h] {
      assert Linked(fat, a[h]) && Linked(fat, b[h]);
      LastOf(fat, a[h]);
      LastOf(fat, b[h]);
      SameHeadSameChain(fat, a[h], b[h]);
    }
  }

  lemma {:induction false} SameHeadSameChain(fat: Table, c: seq<nat>, d: seq<nat>)
    requires |fat| <= EOCHAIN && Linked(fat, c) && Linked(fat, d) && c[0] == d[0]
    ensures c == d
    decreases |c|
  {
    assert |c| > 1 ==> fat[c[0]] == c[1];
    assert |d| > 1 ==> fat[d[0]] == d[1];
    if |c| > 1 {
      TailLinked(fat, c);
      TailLinked(fat, d);
      SameHeadSameChain(fat, c[1..], d[1..]);
      assert c == [c[0]] + c[1..] && d == [d[0]] + d[1..];
    }
  }

  lemma TailLinked(fat: Table, c: seq<nat>)
    requires Linked(fat, c) && |c| > 1
    ensures Linked(fat, c[1..])
  {
    var t := c[1..];
    forall i | 0 <= i < |t| - 1 ensures fat[t[i]] == t[i + 1] {
      assert t[i] == c[i + 1] && t[i + 1] == c[i + 2];
    }
  }

  lemma HeadsIncluded(fat: Table, a: Chains, b: Chains)
    requires WellFormed(fat, a) && WellFormed(fat, b)
    ensures forall h :: h in a ==> h in b
  {
    hide Linked, AllApart;
    forall h | h in a ensures h in b {
      assert Linked(fat, a[h]);
      LastOf(fat, a[h]);
      PathIsUsed(fat, a[h], h);
      assert OnChain(b, h);
      var g :| g in b && h in b[g];
      assert Linked(fat, b[g]);
      var i :| 0 <= i < |b[g]| && b[g][i] == h;
      if i > 0 {
        Predecessor(fat, b[g], i);
        NoPredecessorOfHead(fat, a, h, b[g][i - 1]);
        assert false;
      }
    }
  }

  lemma Predecessor(fat: Table, c: seq<nat>, i: nat)
    requires Linked(fat, c) && 0 < i < |c|
    ensures 2 <= c[i - 1] < |fat| && fat[c[i - 1]] == c[i]
  {
    assert fat[c[i - 1]] == c[i - 1 + 1];
  }

  /** Nothing links to the head of a chain. */
  lemma NoPredecessorOfHead(fat: Table, a: Chains, h: nat, p: nat)
    requires WellFormed(fat, a) && h in a
    requires 2 <= p < |fat|
    ensures fat[p] != h
  {
    hide Linked, AllApart;
    if fat[p] == h {
      assert Linked(fat, a[h]);
      LastOf(fat, a[h]);
      PathIsUsed(fat, a[h], h);
      assert OnChain(a, p);
      var k :| k in a && p in a[k];
      assert Linked(fat, a[k]);
      Successor(fat, a[k], p);
      HeadAtFrontOnly(a, h, k);
    }
  }

  lemma Successor(fat: Table, c: seq<nat>, p: nat)
    requires Linked(fat, c) && p in c && p < |fat| <= EOCHAIN && fat[p] < |fat|
    ensures fat[p] in c[1..]
  {
    var j :| 0 <= j < |c| && c[j] == p;
    assert j < |c| - 1;
    assert c[1..][j] == c[j + 1];
  }

  lemma HeadAtFrontOnly(a: Chains, h: nat, k: nat)
    requires AllApart(a) && h in a && k in a && |a[h]| > 0 && a[h][0] == h && |a[k]| > 0
    ensures h !in a[k][1..]
  {
    if k == h {
      assert NoDup(a[h]);
    } else {
      assert Apart(a[h], a[k]) && h in a[h];
      assert forall x :: x in a[k][1..] ==> x in a[k];
    }
  }

  // ---------- next-fit search ----------

  /** The first free cluster in [from, to), or `to` if there is none. */
  function FirstFree(fat: Table, lo: int, hi: int): (r: nat)
    requires 0 <= lo <= hi <= |fat|
    ensures lo <= r <= hi
    ensures forall x :: lo <= x < r ==> fat[x] != 0
    ensures r < hi ==> fat[r] == 0
    decreases hi - lo
  {
    if lo == hi || fat[lo] == 0 then lo else FirstFree(fat, lo + 1, hi)
  }

  /** The cluster after LAST, in circular order over [2, |fat|), that is free; 0 if there is none. */
  function NextFree(fat: Table, last: nat): (r: nat)
    requires 2 <= last && last + 1 < |fat|
    ensures r != 0 ==> 2 <= r < |fat| && r != last && fat[r] == 0
  {
    var a := FirstFree(fat, last + 1, |fat|);
    if a < |fat| then a
    else
      var b := FirstFree(fat, 2, last);
      if b < last then b else 0
  }

  /** The search misses a free cluster only if it is `last` itself, and it is next-fit. */
  lemma NextFreeSpec(fat: Table, last: nat)
    requires 2 <= last && last + 1 < |fat|
    ensures var r := NextFree(fat, last);
            && (r == 0 <==> forall x :: 2 <= x < |fat| && x != last ==> fat[x] != 0)
            && (r != 0 ==> 2 <= r < |fat| && r != last && fat[r] == 0)
            && (r > last ==> forall x :: last < x < r ==> fat[x] != 0)
            && (0 < r < last ==> forall x :: (last < x < |fat| || 2 <= x < r) ==> fat[x] != 0)
  {
    var a := FirstFree(fat, last + 1, |fat|);
    if a < |fat| {
      assert fat[a] == 0;
    } else {
      var b := FirstFree(fat, 2, last);
      assert b < last ==> fat[b] == 0;
    }
  }

  lemma FirstFreeIs(fat: Table, lo: nat, hi: nat, r: nat)
    requires lo <= r <= hi <= |fat|
    requires forall x :: lo <= x < r ==> fat[x] != 0
    requires r < hi ==> fat[r] == 0
    ensures FirstFree(fat, lo, hi) == r
  {
  }

  /** N clusters below LIMIT can be allocated one after the other: each search starts inside the table
      and finds a free cluster below LIMIT. */
  ghost predicate AllocOk(fat: Table, last: nat, n: nat, limit: int)
    decreases n
  {
    n == 0 ||
    (&& 2 <= last && last + 1 < |fat|
     && 0 < NextFree(fat, last) < limit
     && AllocOk(fat[NextFree(fat, last) := EOCHAIN], NextFree(fat, last), n - 1, limit))
  }

  ghost predicate SameUse(fat: Table, gat: Table) {
    && |fat| == |gat|
    && forall x :: 0 <= x < |fat| ==> (fat[x] == 0 <==> gat[x] == 0)
  }

  lemma NextFreeSameUse(fat: Table, gat: Table, last: nat)
    requires SameUse(fat, gat) && 2 <= last && last + 1 < |fat|
    ensures NextFree(fat, last) == NextFree(gat, last)
  {
    FirstFreeIs(gat, last + 1, |fat|, FirstFree(fat, last + 1, |fat|));
    FirstFreeIs(gat, 2, last, FirstFree(fat, 2, last));
  }

  /** Only which clusters are in use matters to the allocator, not how they are linked. */
  lemma {:induction false} AllocOkSameUse(fat: Table, gat: Table, last: nat, n: nat, limit: int)
    requires SameUse(fat, gat) && AllocOk(fat, last, n, limit)
    ensures AllocOk(gat, last, n, limit)
    decreases n
  {
    hide NextFree;
    if n > 0 {
      NextFreeSameUse(fat, gat, last);
      var r := NextFree(fat, last);
      AllocOkSameUse(fat[r := EOCHAIN], gat[r := EOCHAIN], r, n - 1, limit);
    }
  }

  /** The free clusters from LO to HI (exclusive). */
  ghost function FreeIn(fat: Table, lo: nat, hi: int): set<nat> {
    set x: nat | lo <= x < hi && x < |fat| && fat[x] == 0
  }

  /** The search does not get around the table: it first meets a free cluster from LIMIT on, or hands
      out the table's last cluster, behind which it cannot go on. */
  ghost predicate Stuck(fat: Table, limit: int)
    requires |fat| > 0
  {
    fat[|fat| - 1] == 0 || exists x :: 0 <= limit <= x < |fat| && fat[x] == 0
  }

  /** Exactly how many clusters can be handed out: only the free ones above LAST (and below LIMIT) if the
      search gets stuck, all of them otherwise, provided the first search finds one beside LAST. */
  lemma {:induction false} AllocOkIff(fat: Table, last: nat, n: nat, limit: int)
    requires 2 <= last && last + 1 < |fat| && last < limit
    ensures AllocOk(fat, last, n, limit) <==>
      if Stuck(fat, limit) then n <= |FreeIn(fat, last + 1, limit)|
      else n == 0 || (FreeIn(fat, 2, |fat|) - {last} != {} && n <= |FreeIn(fat, 2, |fat|)|)
    decreases n, 1
  {
    hide NextFree, FreeIn, Stuck;
    if n > 0 {
      if Stuck(fat, limit) {
        AllocStuck(fat, last, n, limit);
      } else {
        AllocAround(fat, last, n, limit);
      }
    }
  }

  lemma {:induction false} AllocStuck(fat: Table, last: nat, n: nat, limit: int)
    requires 2 <= last && last + 1 < |fat| && last < limit && n > 0 && Stuck(fat, limit)
    ensures AllocOk(fat, last, n, limit) <==> n <= |FreeIn(fat, last + 1, limit)|
    decreases n, 0
  {
    hide NextFree, FreeIn;
    var r := NextFree(fat, last);
    StuckNext(fat, last, limit);
    if r < limit {
      var fat' := fat[r := EOCHAIN];
      TakenAbove(fat, last, r, limit);
      if r < |fat| - 1 {
        AllocOkIff(fat', r, n - 1, limit);
      }
    }
  }

  /** A search that is going to get stuck finds the first free cluster above LAST. */
  lemma StuckNext(fat: Table, last: nat, limit: int)
    requires 2 <= last && last + 1 < |fat| && last < limit && Stuck(fat, limit)
    ensures var r := NextFree(fat, last);
            && last < r < |fat| && (forall x :: last < x < r ==> fat[x] != 0) && fat[r] == 0
            && (r >= limit ==> FreeIn(fat, last + 1, limit) == {})
            && (r < |fat| - 1 ==> Stuck(fat[r := EOCHAIN], limit) || r >= limit)
            && (r < limit && r == |fat| - 1 ==> FreeIn(fat, last + 1, limit) == {r})
  {
    NextFreeSpec(fat, last);
    hide NextFree;
    var r := NextFree(fat, last);
    assert exists x :: last < x < |fat| && fat[x] == 0 by {
      if fat[|fat| - 1] != 0 {
        var x :| 0 <= limit <= x < |fat| && fat[x] == 0;
      }
    }
    if r < limit && r < |fat| - 1 && fat[|fat| - 1] != 0 {
      var x :| 0 <= limit <= x < |fat| && fat[x] == 0;
      assert fat[r := EOCHAIN][x] == 0;
    }
  }

  lemma TakenAbove(fat: Table, last: nat, r: nat, limit: int)
    requires last < r < |fat| && r < limit && fat[r] == 0 && forall x :: last < x < r ==> fat[x] != 0
    ensures |FreeIn(fat[r := EOCHAIN], r + 1, limit)| == |FreeIn(fat, last + 1, limit)| - 1
  {
    assert FreeIn(fat[r := EOCHAIN], r + 1, limit) == FreeIn(fat, last + 1, limit) - {r};
    assert r in FreeIn(fat, last + 1, limit);
  }

  lemma {:induction false} AllocAround(fat: Table, last: nat, n: nat, limit: int)
    requires 2 <= last && last + 1 < |fat| && last < limit && n > 0 && !Stuck(fat, limit)
    ensures AllocOk(fat, last, n, limit) <==>
      FreeIn(fat, 2, |fat|) - {last} != {} && n <= |FreeIn(fat, 2, |fat|)|
    decreases n, 0
  {
    hide NextFree, FreeIn;
    var r := NextFree(fat, last);
    AroundNext(fat, last, limit);
    if r != 0 {
      AllocOkIff(fat[r := EOCHAIN], r, n - 1, limit);
    }
  }

  /** A search that gets around finds a free cluster below LIMIT unless LAST is the only one. */
  lemma AroundNext(fat: Table, last: nat, limit: int)
    requires 2 <= last && last + 1 < |fat| && last < limit && !Stuck(fat, limit)
    ensures var r, all := NextFree(fat, last), FreeIn(fat, 2, |fat|);
            && (r == 0 <==> all - {last} == {})
            && (r != 0 ==>
                && 2 <= r < limit && r + 1 < |fat| && !Stuck(fat[r := EOCHAIN], limit)
                && |FreeIn(fat[r := EOCHAIN], 2, |fat|)| == |all| - 1
                && (FreeIn(fat[r := EOCHAIN], 2, |fat|) - {r} == {} ==> |all| == 1))
  {
    NextFreeSpec(fat, last);
    hide NextFree;
    var r, all := NextFree(fat, last), FreeIn(fat, 2, |fat|);
    if r == 0 {
      assert forall x :: x in all ==> x == last;
    } else {
      assert r in all - {last};
      var rest := FreeIn(fat[r := EOCHAIN], 2, |fat|);
      assert rest == all - {r};
      assert rest - {r} == rest;
    }
  }
  /** A search after an allocation starts inside the table unless the last cluster was handed out,
      which happens exactly when it is the first free one after LAST. */
  lemma NextSearchInBoundsIff(fat: Table, last: nat)
    requires 2 <= last && last + 1 < |fat|
    ensures NextFree(fat, last) + 1 < |fat| <==>
      (fat[|fat| - 1] != 0 || exists x :: last < x < |fat| - 1 && fat[x] == 0)
  {
    NextFreeSpec(fat, last);
    var a := FirstFree(fat, last + 1, |fat|);
    if a < |fat| - 1 {
      assert fat[a] == 0;
    }
  }

  // ---------- how the two updates act on the chains ----------

  lemma StartKeeps(fat: Table, chains: Chains, new_: nat)
    requires WellFormed(fat, chains)
    requires 2 <= new_ < |fat| && fat[new_] == 0
    ensures new_ !in chains
    ensures WellFormed(fat[new_ := EOCHAIN], chains[new_ := [new_]])
  {
    hide Linked, AllApart, Covered;
    FreeIsOffChain(fat, chains, new_);
    if new_ in chains {
      assert Linked(fat, chains[new_]);
      LastOf(fat, chains[new_]);
    }
    var fat', chains' := fat[new_ := EOCHAIN], chains[new_ := [new_]];
    forall h | h in chains' ensures Linked(fat', chains'[h]) && |chains'[h]| > 0 && chains'[h][0] == h {
      if h == new_ {
        SingletonLinked(fat', new_);
      } else {
        PathInRange(fat, chains[h]);
        LastOf(fat, chains[h]);
        StillLinked(fat, fat', chains[h]);
      }
    }
    StartApart(chains, new_);
    StartCovered(fat, chains, new_);
  }

  lemma SingletonLinked(fat: Table, x: nat)
    requires 2 <= x < |fat| && fat[x] == EOCHAIN
    ensures Linked(fat, [x])
  {
  }

  lemma PathInRange(fat: Table, c: seq<nat>)
    requires Linked(fat, c)
    ensures forall x :: x in c ==> 2 <= x < |fat|
  {
  }

  lemma StartApart(chains: Chains, new_: nat)
    requires AllApart(chains) && forall g :: g in chains ==> new_ !in chains[g]
    ensures AllApart(chains[new_ := [new_]])
  {
    var chains' := chains[new_ := [new_]];
    forall g | g in chains' ensures NoDup(chains'[g]) {
      if g != new_ { assert NoDup(chains[g]); }
    }
    forall f, g | f in chains' && g in chains' && f != g ensures Apart(chains'[f], chains'[g]) {
      if f != new_ && g != new_ { assert Apart(chains[f], chains[g]); }
    }
  }

  lemma StartCovered(fat: Table, chains: Chains, new_: nat)
    requires Covered(fat, chains) && 2 <= new_ < |fat| && new_ !in chains
    ensures Covered(fat[new_ := EOCHAIN], chains[new_ := [new_]])
  {
    var fat', chains' := fat[new_ := EOCHAIN], chains[new_ := [new_]];
    forall x | 2 <= x < |fat'| && fat'[x] != 0 ensures OnChain(chains', x) {
      if x == new_ {
        assert new_ in chains' && x in chains'[new_];
      } else {
        assert OnChain(chains, x);
        var h :| h in chains && x in chains[h];
        assert h in chains' && x in chains'[h];
      }
    }
  }

  /** A path is unaffected by changes to clusters that are not on it. */
  lemma StillLinked(fat: Table, fat': Table, c: seq<nat>)
    requires Linked(fat, c) && |fat'| == |fat|
    requires forall x :: x in c ==> x < |fat| && fat'[x] == fat[x]
    ensures Linked(fat', c)
  {
    forall i | 0 <= i < |c| - 1 ensures fat'[c[i]] == c[i + 1] {
      assert c[i] in c;
    }
  }

  lemma AppendKeeps(fat: Table, chains: Chains, h: nat, z: nat, new_: nat)
    requires WellFormed(fat, chains) && h in chains
    requires |chains[h]| > 0 && z == chains[h][|chains[h]| - 1] && 2 <= z < |fat|
    requires 2 <= new_ < |fat| && fat[new_] == 0
    ensures WellFormed(fat[new_ := EOCHAIN][z := new_], chains[h := chains[h] + [new_]])
  {
    hide Covered, AllApart, Linked;
    FreeIsOffChain(fat, chains, new_);
    hide AllLinked;
    AppendLinked(fat, chains, h, z, new_);
    AppendApart(chains, h, new_);
    AppendCovered(fat, chains, h, z, new_);
  }

  lemma LastOf(fat: Table, c: seq<nat>)
    requires Linked(fat, c)
    ensures |c| > 0 && 2 <= c[|c| - 1] < |fat| && c[|c| - 1] in c && fat[c[|c| - 1]] == EOCHAIN
  {
  }

  lemma AppendLinked(fat: Table, chains: Chains, h: nat, z: nat, new_: nat)
    requires AllLinked(fat, chains) && AllApart(chains) && h in chains && |chains[h]| > 0
    requires 2 <= new_ < |fat| && forall g :: g in chains ==> new_ !in chains[g]
    requires z == chains[h][|chains[h]| - 1] && z < |fat|
    ensures AllLinked(fat[new_ := EOCHAIN][z := new_], chains[h := chains[h] + [new_]])
  {
    hide Linked;
    var c := chains[h];
    var fat', chains' := fat[new_ := EOCHAIN][z := new_], chains[h := c + [new_]];
    forall g | g in chains' ensures Linked(fat', chains'[g]) && |chains'[g]| > 0 && chains'[g][0] == g {
      if g == h {
        LastOf(fat, c);
        AppendOne(fat, c, new_);
      } else {
        assert Apart(chains[h], chains[g]) && z in c;
        PathInRange(fat, chains[g]);
        LastOf(fat, chains[g]);
        StillLinked(fat, fat', chains[g]);
      }
    }
  }

  lemma AppendOne(fat: Table, c: seq<nat>, new_: nat)
    requires Linked(fat, c) && NoDup(c) && 2 <= new_ < |fat| && new_ !in c
    ensures Linked(fat[new_ := EOCHAIN][c[|c| - 1] := new_], c + [new_])
  {
    var z := c[|c| - 1];
    var fat', d := fat[new_ := EOCHAIN][z := new_], c + [new_];
    forall i | 0 <= i < |d| - 1 ensures fat'[d[i]] == d[i + 1] {
      if i < |c| - 1 {
        assert c[i] != z && c[i] in c;
      }
    }
  }

  lemma AppendApart(chains: Chains, h: nat, new_: nat)
    requires AllApart(chains) && h in chains
    requires forall g :: g in chains ==> new_ !in chains[g]
    ensures AllApart(chains[h := chains[h] + [new_]])
  {
    var c := chains[h];
    var chains' := chains[h := c + [new_]];
    forall g | g in chains' ensures NoDup(chains'[g]) {
      if g == h {
        assert NoDup(c);
        forall i, j | 0 <= i < j < |c + [new_]| ensures (c + [new_])[i] != (c + [new_])[j] {
          assert c[i] in c;
        }
      }
    }
    forall f, g | f in chains' && g in chains' && f != g ensures Apart(chains'[f], chains'[g]) {
      assert Apart(chains[f], chains[g]);
    }
  }

  lemma AppendCovered(fat: Table, chains: Chains, h: nat, z: nat, new_: nat)
    requires Covered(fat, chains) && h in chains && |chains[h]| > 0
    requires new_ < |fat| && z == chains[h][|chains[h]| - 1] && 2 <= z < |fat|
    ensures Covered(fat[new_ := EOCHAIN][z := new_], chains[h := chains[h] + [new_]])
  {
    var c := chains[h];
    var fat', chains' := fat[new_ := EOCHAIN][z := new_], chains[h := c + [new_]];
    forall x | 2 <= x < |fat'| && fat'[x] != 0 ensures OnChain(chains', x) {
      if x == new_ || x == z {
        assert h in chains' && x in chains'[h];
      } else {
        assert OnChain(chains, x);
        var g :| g in chains && x in chains[g];
        assert g in chains' && x in chains'[g];
      }
    }
  }

  /** The chains left when the clusters of chain H from position K on are removed. */
  ghost function Cut(chains: Chains, h: nat, k: nat): Chains
    requires h in chains && k <= |chains[h]|
  {
    if k == 0 then chains - {h} else chains[h := chains[h][..k]]
  }

  /** The table after fat_remove_chain: the cut point terminated, the removed clusters zeroed. */
  ghost predicate CutTable(fat: Table, fat': Table, c: seq<nat>, k: nat)
    requires k <= |c|
  {
    && |fat'| == |fat|
    && forall x :: 0 <= x < |fat| ==>
        fat'[x] == if x in c[k..] then 0 else if k > 0 && x == c[k - 1] then EOCHAIN else fat[x]
  }

  lemma CutKeeps(fat: Table, chains: Chains, h: nat, k: nat, fat': Table)
    requires WellFormed(fat, chains) && h in chains && k < |chains[h]|
    requires CutTable(fat, fat', chains[h], k)
    ensures WellFormed(fat', Cut(chains, h, k))
  {
    hide CutTable, Covered, AllApart, AllLinked, Apart, NoDup, Linked;
    CutLinked(fat, chains, h, k, fat');
    CutApart(chains, h, k);
    CutCovered(fat, chains, h, k, fat');
    assert |fat'| == |fat| by { CutLength(fat, fat', chains[h], k); }
  }

  lemma CutLength(fat: Table, fat': Table, c: seq<nat>, k: nat)
    requires k <= |c| && CutTable(fat, fat', c, k)
    ensures |fat'| == |fat|
  {
  }

  lemma CutLinked(fat: Table, chains: Chains, h: nat, k: nat, fat': Table)
    requires AllLinked(fat, chains) && AllApart(chains) && h in chains && k < |chains[h]|
    requires CutTable(fat, fat', chains[h], k)
    ensures AllLinked(fat', Cut(chains, h, k))
  {
    var c, chains' := chains[h], Cut(chains, h, k);
    forall g | g in chains' ensures Linked(fat', chains'[g]) && |chains'[g]| > 0 && chains'[g][0] == g {
      if g == h {
        assert Linked(fat, c) && NoDup(c);
        CutOne(fat, c, k, fat');
      } else {
        assert Apart(chains[g], chains[h]) && Linked(fat, chains[g]);
        OffChainKept(fat, chains[g], c, k, fat');
        StillLinked(fat, fat', chains[g]);
      }
    }
  }

  lemma OffChainKept(fat: Table, d: seq<nat>, c: seq<nat>, k: nat, fat': Table)
    requires k <= |c| && CutTable(fat, fat', c, k) && Apart(d, c)
    requires forall i :: 0 <= i < |d| ==> d[i] < |fat|
    ensures forall x :: x in d ==> x < |fat| && fat'[x] == fat[x]
  {
  }

  lemma CutOne(fat: Table, c: seq<nat>, k: nat, fat': Table)
    requires Linked(fat, c) && NoDup(c) && 0 < k < |c| && CutTable(fat, fat', c, k)
    ensures Linked(fat', c[..k])
  {
    var d := c[..k];
    assert forall i, j :: 0 <= i < k && 0 <= j < |c[k..]| ==> c[i] != c[k..][j];
    forall i | 0 <= i < |d| - 1 ensures fat'[d[i]] == d[i + 1] {
      assert d[i] == c[i] && c[i] != c[k - 1];
    }
  }

  lemma CutApart(chains: Chains, h: nat, k: nat)
    requires AllApart(chains) && h in chains && k <= |chains[h]|
    ensures AllApart(Cut(chains, h, k))
  {
    var chains' := Cut(chains, h, k);
    forall g | g in chains' ensures NoDup(chains'[g]) {
      assert NoDup(chains[g]);
    }
    forall f, g | f in chains' && g in chains' && f != g ensures Apart(chains'[f], chains'[g]) {
      assert Apart(chains[f], chains[g]);
    }
  }

  lemma CutCovered(fat: Table, chains: Chains, h: nat, k: nat, fat': Table)
    requires |fat| <= EOCHAIN && Covered(fat, chains) && AllLinked(fat, chains) && h in chains && k < |chains[h]|
    requires CutTable(fat, fat', chains[h], k)
    ensures Covered(fat', Cut(chains, h, k))
  {
    hide Linked;
    var c, chains' := chains[h], Cut(chains, h, k);
    assert Linked(fat, c);
    forall x | 2 <= x < |fat'| && fat'[x] != 0 ensures OnChain(chains', x) {
      CutNonzero(fat, fat', c, k, x);
      assert OnChain(chains, x);
      var g :| g in chains && x in chains[g];
      if g == h {
        assert h in chains' && x in chains'[h];
      } else {
        assert g in chains' && x in chains'[g];
      }
    }
  }

  /** A cluster that is still in use after the cut was in use before, and not in the cut part. */
  lemma CutNonzero(fat: Table, fat': Table, c: seq<nat>, k: nat, x: nat)
    requires Linked(fat, c) && k < |c| && CutTable(fat, fat', c, k) && |fat| <= EOCHAIN
    requires 2 <= x < |fat'| && fat'[x] != 0
    ensures x < |fat| && fat[x] != 0 && x !in c[k..]
    ensures x in c ==> k > 0 && x in c[..k]
  {
    if x in c {
      PathIsUsed(fat, c, x);
      assert c == c[..k] + c[k..];
    }
  }

  // ---------- the removal loop on any cluster ----------

  /** N rounds of the loop of fat_remove_chain: the table and the cluster it goes on with. It stops at
      the end mark; a cluster outside the table cannot be looked up. */
  ghost function RemoveRounds(fat: Table, clst: nat, n: nat): (Table, nat)
    decreases n
  {
    if n == 0 || clst == EOCHAIN || clst >= |fat| then (fat, clst)
    else RemoveRounds(fat[clst := 0], fat[clst], n - 1)
  }

  ghost predicate RemovalEnds(fat: Table, clst: nat) {
    exists n: nat :: RemoveRounds(fat, clst, n).1 == EOCHAIN
  }

  /** fat_create's reserved entries: cluster 0 is never used, the root directory ends at once. */
  predicate Reserved(fat: Table) { |fat| > 2 && fat[0] == 0 && fat[ROOT_DIR_CLUSTER] == EOCHAIN }

  lemma {:induction false} ZeroLoops(fat: Table, n: nat)
    requires Reserved(fat)
    ensures RemoveRounds(fat, 0, n) == (fat, 0)
  {
    if n > 0 {
      assert fat[0 := 0] == fat;
      ZeroLoops(fat, n - 1);
    }
  }

  lemma {:induction false} ChainRemoved(fat: Table, c: seq<nat>, i: nat)
    requires |fat| <= EOCHAIN && i < |c| && NoDup(c) && forall j :: i <= j < |c| ==> 2 <= c[j] < |fat|
    requires forall j {:trigger c[j]} :: i <= j < |c| ==> fat[c[j]] == if j == |c| - 1 then EOCHAIN else c[j + 1]
    ensures RemoveRounds(fat, c[i], |c| - i).1 == EOCHAIN
    decreases |c| - i
  {
    var gat := fat[c[i] := 0];
    if i < |c| - 1 {
      forall j {:trigger c[j]} | i + 1 <= j < |c| ensures gat[c[j]] == if j == |c| - 1 then EOCHAIN else c[j + 1] {
        assert c[j] != c[i];
      }
      ChainRemoved(gat, c, i + 1);
    } else {
      assert RemoveRounds(gat, EOCHAIN, 0).1 == EOCHAIN;
    }
  }

  /** fat_remove_chain reaches the end mark exactly when the cluster it is given is in use. In particular
      the call for the start 0 of an empty file never ends (ZeroLoops). */
  lemma RemovalEndsIff(fat: Table, chains: Chains, clst: nat)
    requires WellFormed(fat, chains) && Reserved(fat) && clst < |fat|
    ensures RemovalEnds(fat, clst) <==> fat[clst] != 0
  {
    hide AllLinked, AllApart, Linked;
    if fat[clst] == 0 {
      forall n: nat ensures RemoveRounds(fat, clst, n).1 != EOCHAIN {
        assert fat[clst := 0] == fat;
        if n > 0 { ZeroLoops(fat, n - 1); }
      }
    } else if clst == ROOT_DIR_CLUSTER {
      assert RemoveRounds(fat[clst := 0], EOCHAIN, 0).1 == EOCHAIN;
      assert RemoveRounds(fat, clst, 1).1 == EOCHAIN;
    } else {
      assert OnChain(chains, clst);
      var h :| h in chains && clst in chains[h];
      var c := chains[h];
      var i :| 0 <= i < |c| && c[i] == clst;
      OnPath(fat, chains, h);
      ChainRemoved(fat, c, i);
    }
  }

  lemma OnPath(fat: Table, chains: Chains, h: nat)
    requires WellFormed(fat, chains) && h in chains
    ensures NoDup(chains[h]) && forall j :: 0 <= j < |chains[h]| ==> 2 <= chains[h][j] < |fat|
    ensures forall j {:trigger chains[h][j]} :: 0 <= j < |chains[h]| ==>
      fat[chains[h][j]] == if j == |chains[h]| - 1 then EOCHAIN else chains[h][j + 1]
  {
    hide Covered;
    assert Linked(fat, chains[h]);
  }

  // ---------- the file system's table object ----------

  class FatFs {
    const fat: array<nat>
    var lastClst: nat
    ghost var chains: Chains

    ghost predicate Valid()
      reads this, fat
    {
      WellFormed(fat[..], chains) && Reserved(fat[..]) && 2 <= lastClst < fat.Length
    }

    /** fat_create: an empty table with the root directory's cluster reserved. */
    constructor (length: nat)
      requires 2 < length <= EOCHAIN
      ensures Valid() && fresh(fat) && fat.Length == length
      ensures chains == map[] && lastClst == ROOT_DIR_CLUSTER + 1
    {
      fat := new nat[length](_ => 0);
      lastClst := ROOT_DIR_CLUSTER + 1;
      chains := map[];
      new;
      fat[ROOT_DIR_CLUSTER] := EOCHAIN;
    }

    /** Circular next-fit search. It stays inside the table because LAST_CLST is not its last entry. */
    method FindFreeCluster() returns (r: nat)
      requires 2 <= lastClst && lastClst + 1 < fat.Length
      ensures r == NextFree(fat[..], lastClst)
    {
      var end := lastClst;
      var finding := end + 1;
      while finding != end
        invariant 2 <= finding < fat.Length
        invariant finding > end ==> forall x :: end < x < finding ==> fat[x] != 0
        invariant finding <= end ==> forall x :: (end < x < fat.Length || 2 <= x < finding) ==> fat[x] != 0
        decreases finding > end, if finding <= end then end - finding else fat.Length - finding
      {
        if fat[finding] == 0 {
          SearchFound(fat[..], end, finding);
          return finding;
        }
        finding := finding + 1;
        if finding == fat.Length {
          finding := 2;
        }
      }
      SearchFailed(fat[..], end);
      r := 0;
    }

    /** Appends one cluster to the chain that CLST is on, or starts a chain when CLST is 0. */
    method CreateChain(clst0: nat, ghost head: nat) returns (r: nat)
      requires Valid() && lastClst + 1 < fat.Length
      requires clst0 == 0 || (head in chains && clst0 in chains[head])
      modifies this, fat
      ensures Valid()
      ensures r == NextFree(old(fat[..]), old(lastClst))
      ensures r == 0 ==> unchanged(this) && unchanged(fat)
      ensures r != 0 ==> lastClst == r && 2 <= r < fat.Length && old(fat[r]) == 0
      ensures r != 0 && clst0 == 0 ==> chains == old(chains)[r := [r]] && r !in old(chains)
      ensures r != 0 && clst0 != 0 ==> chains == old(chains)[head := old(chains[head]) + [r]]
      ensures r != 0 && clst0 == 0 ==> fat[..] == old(fat[..])[r := EOCHAIN]
      ensures r != 0 && clst0 != 0 ==> Grown(old(fat[..]), fat[..], old(chains[head]), r)
    {
      hide Linked, AllLinked, AllApart, Covered, NextFree;
      var clst := clst0;
      r := FindFreeCluster();
      NextFreeSpec(fat[..], lastClst);
      if r == 0 { return; }
      ghost var before: Table := fat[..];
      fat[r] := EOCHAIN;
      lastClst := r;
      if clst == 0 {
        StartKeeps(before, chains, r);
        chains := chains[r := [r]];
        assert fat[..] == before[r := EOCHAIN];
        return;
      }
      clst := LastCluster(clst, head, before, r);
      fat[clst] := r;
      assert fat[..] == before[r := EOCHAIN][clst := r];
      AppendKeeps(before, chains, head, clst, r);
      chains := chains[head := chains[head] + [r]];
    }

    /** The walk to the end of a chain, through the table as it was BEFORE the new entry R. */
    method LastCluster(clst0: nat, ghost head: nat, ghost before: Table, ghost r: nat) returns (clst: nat)
      requires WellFormed(before, chains) && head in chains && clst0 in chains[head]
      requires 2 <= r < |before| && before[r] == 0 && fat[..] == before[r := EOCHAIN]
      ensures |chains[head]| > 0 && clst == chains[head][|chains[head]| - 1] && 2 <= clst < fat.Length
    {
      hide Linked, AllApart, Covered, NoDup;
      clst := clst0;
      ghost var c := chains[head];
      assert Linked(before, c);
      ghost var i :| 0 <= i < |c| && c[i] == clst;
      PathStep(before, c, i, r);
      while clst != ROOT_DIR_CLUSTER && fat[clst] != EOCHAIN
        invariant 0 <= i < |c| && c[i] == clst
        invariant 2 <= clst < fat.Length && clst != r
        invariant fat[clst] == if i == |c| - 1 then EOCHAIN else c[i + 1]
        invariant i < |c| - 1 ==> c[i + 1] < EOCHAIN
        decreases |c| - i
      {
        clst := fat[clst];
        i := i + 1;
        PathStep(before, c, i, r);
      }
    }

    /** Removes the clusters of chain HEAD from position K on; CLST is the first of them and PCLST
        the one before it, or 0 when the whole chain goes. */
    method RemoveChain(clst0: nat, pclst: nat, ghost head: nat, ghost k: nat)
      requires Valid()
      requires head in chains && k < |chains[head]| && clst0 == chains[head][k]
      requires pclst == if k == 0 then 0 else chains[head][k - 1]
      modifies this, fat
      ensures Valid()
      ensures chains == Cut(old(chains), head, k)
      ensures CutTable(old(fat[..]), fat[..], old(chains[head]), k)
      ensures lastClst == if old(lastClst) in old(chains[head])[k..] then 2 else old(lastClst)
    {
      hide AllApart, AllLinked, Covered, Linked, Reserved, CutTable, NoDup, Cut;
      ghost var before: Table, c := fat[..], chains[head];
      RemovalPath(before, chains, head, k);
      if pclst != 0 {
        fat[pclst] := EOCHAIN;
      }
      ghost var mid: Table := fat[..];
      ghost var lst := lastClst;
      var clst := clst0;
      ghost var i := k;
      while clst != EOCHAIN
        invariant k <= i <= |c| && chains == old(chains) && 2 <= lastClst < fat.Length
        invariant clst == if i == |c| then EOCHAIN else c[i]
        invariant fat.Length == |mid|
        invariant forall x :: 0 <= x < fat.Length ==> fat[x] == if x in c[k..i] then 0 else mid[x]
        invariant lastClst == if lst in c[k..i] then 2 else lst
        decreases |c| - i
      {
        RemovalStep(before, mid, c, k, i);
        var next := fat[clst];
        fat[clst] := 0;
        if lastClst == clst {
          lastClst := 2;
        }
        clst := next;
        i := i + 1;
      }
      assert c[k..|c|] == c[k..];
      CutDone(before, mid, fat[..], c, k);
      CutKeeps(before, chains, head, k, fat[..]);
      CutReserved(before, fat[..], c, k);
      chains := Cut(chains, head, k);
    }
  }

  lemma CutDone(before: Table, mid: Table, after: Table, c: seq<nat>, k: nat)
    requires k < |c| && |after| == |mid| == |before| && (k > 0 ==> c[k - 1] < |before|)
    requires mid == if k == 0 then before else before[c[k - 1] := EOCHAIN]
    requires forall x :: 0 <= x < |after| ==> after[x] == if x in c[k..] then 0 else mid[x]
    ensures CutTable(before, after, c, k)
  {
  }

  lemma CutReserved(fat: Table, fat': Table, c: seq<nat>, k: nat)
    requires k <= |c| && CutTable(fat, fat', c, k) && Reserved(fat) && forall i :: 0 <= i < |c| ==> c[i] >= 2
    ensures Reserved(fat')
  {
  }

  lemma SearchFound(fat: Table, last: nat, r: nat)
    requires 2 <= last && last + 1 < |fat|
    requires 2 <= r < |fat| && r != last && fat[r] == 0
    requires r > last ==> forall x :: last < x < r ==> fat[x] != 0
    requires r < last ==> forall x :: (last < x < |fat| || 2 <= x < r) ==> fat[x] != 0
    ensures r == NextFree(fat, last)
  {
    if r > last {
      FirstFreeIs(fat, last + 1, |fat|, r);
    } else {
      FirstFreeIs(fat, last + 1, |fat|, |fat|);
      FirstFreeIs(fat, 2, last, r);
    }
  }

  lemma SearchFailed(fat: Table, last: nat)
    requires 2 <= last && last + 1 < |fat|
    requires forall x :: (last < x < |fat| || 2 <= x < last) ==> fat[x] != 0
    ensures NextFree(fat, last) == 0
  {
    FirstFreeIs(fat, last + 1, |fat|, |fat|);
    FirstFreeIs(fat, 2, last, last);
  }

  /** The table after R was appended to the path C. */
  ghost predicate Grown(fat: Table, fat': Table, c: seq<nat>, r: nat) {
    && |c| > 0 && r < |fat| && c[|c| - 1] < |fat|
    && fat' == fat[r := EOCHAIN][c[|c| - 1] := r]
  }

  lemma PathStep(before: Table, c: seq<nat>, i: nat, r: nat)
    requires Linked(before, c) && i < |c| && |before| <= EOCHAIN
    requires r < |before| && before[r] == 0
    ensures 2 <= c[i] < |before| && c[i] != r
    ensures before[r := EOCHAIN][c[i]] == if i == |c| - 1 then EOCHAIN else c[i + 1]
    ensures i < |c| - 1 ==> c[i + 1] < EOCHAIN
  {
    assert c[i] in c;
    PathIsUsed(before, c, c[i]);
  }

  lemma RemovalPath(before: Table, chains: Chains, head: nat, k: nat)
    requires WellFormed(before, chains) && head in chains && k < |chains[head]|
    ensures Linked(before, chains[head]) && NoDup(chains[head])
    ensures forall i :: 0 <= i < |chains[head]| ==> 2 <= chains[head][i] < |before|
  {
  }

  lemma RemovalStep(before: Table, mid: Table, c: seq<nat>, k: nat, i: nat)
    requires Linked(before, c) && NoDup(c) && |mid| == |before| <= EOCHAIN
    requires k <= i < |c| && c[i] < |mid|
    requires mid[c[i]] == before[c[i]]
    ensures 2 <= c[i] < |mid| && c[i] !in c[k..i] && c[k..i + 1] == c[k..i] + [c[i]]
    ensures mid[c[i]] == if i == |c| - 1 then EOCHAIN else c[i + 1]
    ensures c[i] != EOCHAIN
  {
  }
}
