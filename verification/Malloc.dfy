/** The size-class allocator of threads/malloc.c. Pages come from an abstract page allocator; block
    addresses are numbers, and a block's arena is found by rounding its address down to a page. */
module Malloc {
  import opened Basics

  const PGSIZE: nat := 4096
  const HEADER: nat := 24              // sizeof (struct arena)
  const SIZE_MAX1: nat := 0x1_0000_0000_0000_0000
  const DESC_CNT: nat := 7

  /** Descriptor D manages blocks of 16 * 2^D bytes. */
  function BlockSize(d: nat): (r: nat)
    requires d < DESC_CNT
  {
    if d == 0 then 16 else if d == 1 then 32 else if d == 2 then 64 else if d == 3 then 128
    else if d == 4 then 256 else if d == 5 then 512 else 1024
  }

  function BlocksPerArena(d: nat): nat
    requires d < DESC_CNT
  {
    if d == 0 then 254 else if d == 1 then 127 else if d == 2 then 63 else if d == 3 then 31
    else if d == 4 then 15 else if d == 5 then 7 else 3
  }

  datatype Arena = Small(desc: nat, freeCnt: nat) | Big(pages: nat)

  datatype Heap = Heap(free: seq<seq<nat>>, arenas: map<nat, Arena>, live: map<nat, nat>)

  // ---------- addresses ----------

  /** arena_to_block. */
  function Block(a: nat, d: nat, i: nat): nat
    requires d < DESC_CNT
  {
    a + HEADER + i * BlockSize(d)
  }

  /** block_to_arena, without its assertions. */
  function PageOf(x: nat): nat { x - x % PGSIZE }

  /** All blocks of arena A. */
  ghost function BlocksOf(a: nat, d: nat): set<nat>
    requires d < DESC_CNT
  {
    set i | 0 <= i < BlocksPerArena(d) :: Block(a, d, i)
  }

  lemma BlockInside(a: nat, d: nat, i: nat)
    requires d < DESC_CNT && i < BlocksPerArena(d) && a % PGSIZE == 0
    ensures a + HEADER <= Block(a, d, i) && Block(a, d, i) + BlockSize(d) <= a + PGSIZE
    ensures PageOf(Block(a, d, i)) == a
  {
  }

  lemma BlocksInside(a: nat, d: nat, x: nat)
    requires d < DESC_CNT && a % PGSIZE == 0 && x in BlocksOf(a, d)
    ensures a + HEADER <= x && x + BlockSize(d) <= a + PGSIZE && PageOf(x) == a
  {
    var i :| 0 <= i < BlocksPerArena(d) && x == Block(a, d, i);
    BlockInside(a, d, i);
  }

  /** Two blocks of one arena do not overlap. */
  lemma BlocksApart(a: nat, d: nat, x: nat, y: nat)
    requires d < DESC_CNT && x in BlocksOf(a, d) && y in BlocksOf(a, d) && x < y
    ensures x + BlockSize(d) <= y
  {
    var i :| 0 <= i < BlocksPerArena(d) && x == Block(a, d, i);
    var j :| 0 <= j < BlocksPerArena(d) && y == Block(a, d, j);
    Spaced(i, j, BlockSize(d));
  }

  lemma Spaced(i: nat, j: nat, n: nat)
    requires i * n < j * n
    ensures i * n + n <= j * n
  {
    assert i < j;
    assert (i + 1) * n <= j * n;
  }

  lemma {:induction false} BlockCount(a: nat, d: nat, n: nat)
    requires d < DESC_CNT
    ensures |set i | 0 <= i < n :: Block(a, d, i)| == n
    decreases n
  {
    var s := set i | 0 <= i < n :: Block(a, d, i);
    if n > 0 {
      var t := set i | 0 <= i < n - 1 :: Block(a, d, i);
      BlockCount(a, d, n - 1);
      assert s == t + {Block(a, d, n - 1)};
      forall i | 0 <= i < n - 1 ensures Block(a, d, i) != Block(a, d, n - 1) {
        Increasing(i, n - 1, BlockSize(d));
      }
    }
  }

  lemma Increasing(i: nat, j: nat, n: nat)
    requires i < j && n > 0
    ensures i * n < j * n
  {
  }

  // ---------- the invariant ----------

  function Pages(r: Arena): nat { if r.Small? then 1 else r.pages }

  ghost predicate ArenasOk(arenas: map<nat, Arena>) {
    && (forall a :: a in arenas ==> a > 0 && a % PGSIZE == 0)
    && (forall a :: a in arenas ==> if arenas[a].Small? then arenas[a].desc < DESC_CNT else arenas[a].pages > 0)
    && (forall a, b :: a in arenas && b in arenas && a < b ==> a + PGSIZE * Pages(arenas[a]) <= b)
  }

  /** Address X belongs to a small arena of descriptor D. */
  ghost predicate InSmall(arenas: map<nat, Arena>, d: nat, x: nat)
    requires d < DESC_CNT
  {
    var a := PageOf(x);
    a in arenas && arenas[a].Small? && arenas[a].desc == d && x in BlocksOf(a, d)
  }

  /** Each free list holds blocks of its own arenas, none twice. */
  ghost predicate FreeOk(h: Heap) {
    && |h.free| == DESC_CNT
    && (forall d :: 0 <= d < DESC_CNT ==> NoDup(h.free[d]) && forall x :: x in h.free[d] ==> InSmall(h.arenas, d, x))
  }

  /** The blocks of arena A that are on the free list. */
  ghost function FreeIn(l: seq<nat>, a: nat, d: nat): set<nat>
    requires d < DESC_CNT
  {
    set x | x in l && x in BlocksOf(a, d)
  }

  /** A small arena counts its free blocks; the others are the live ones. */
  ghost predicate ArenaOk(h: Heap, a: nat)
    requires FreeOk(h) && ArenasOk(h.arenas) && a in h.arenas
  {
    match h.arenas[a]
    case Small(d, n) =>
      && n == |FreeIn(h.free[d], a, d)|
      && (forall x :: x in BlocksOf(a, d) ==> (x in h.free[d] <==> x !in h.live))
    case Big(pages) => a + HEADER in h.live
  }

  function Capacity(r: Arena): int
    requires r.Small? ==> r.desc < DESC_CNT
  {
    if r.Small? then BlockSize(r.desc) else PGSIZE * r.pages - HEADER
  }

  /** A live address is a block start of some arena, with room for what was asked. */
  ghost predicate LiveOk(h: Heap, x: nat)
    requires ArenasOk(h.arenas) && x in h.live
  {
    var a := PageOf(x);
    && a in h.arenas && h.live[x] <= Capacity(h.arenas[a])
    && match h.arenas[a]
       case Small(d, _) => x in BlocksOf(a, d)
       case Big(_) => x == a + HEADER
  }

  /** The state between an arena's creation or refilling and the end of the call. */
  ghost predicate Inv0(h: Heap) {
    && ArenasOk(h.arenas) && FreeOk(h)
    && (forall a :: a in h.arenas ==> ArenaOk(h, a))
    && (forall x :: x in h.live ==> LiveOk(h, x))
  }

  /** No small arena without a live block survives a call. */
  ghost predicate Inv(h: Heap) {
    && Inv0(h)
    && (forall a :: a in h.arenas && h.arenas[a].Small? ==> h.arenas[a].freeCnt < BlocksPerArena(h.arenas[a].desc))
  }

  // ---------- what it means for the caller ----------

  /** Live blocks are pairwise disjoint over their whole capacity, lie past their arena header inside
      the arena's pages, and are large enough. */
  lemma LiveBlocksApart(h: Heap, x: nat, y: nat)
    requires Inv0(h) && x in h.live && y in h.live && x < y
    ensures PageOf(x) in h.arenas && x + Capacity(h.arenas[PageOf(x)]) <= y
  {
    assert LiveOk(h, x) && LiveOk(h, y);
    LiveInside(h, x);
    LiveInside(h, y);
    var a, b := PageOf(x), PageOf(y);
    if a == b {
      if h.arenas[a].Small? {
        BlocksApart(a, h.arenas[a].desc, x, y);
      }
    }
  }

  lemma LiveInside(h: Heap, x: nat)
    requires Inv0(h) && x in h.live
    ensures var a := PageOf(x);
            && a in h.arenas && a + HEADER <= x && h.live[x] <= Capacity(h.arenas[a])
            && x + Capacity(h.arenas[a]) <= a + PGSIZE * Pages(h.arenas[a])
  {
    assert LiveOk(h, x);
    var a := PageOf(x);
    if h.arenas[a].Small? {
      BlocksInside(a, h.arenas[a].desc, x);
    }
  }

  /** A surviving small arena has a live block. */
  lemma SmallArenaHasLive(h: Heap, a: nat)
    requires Inv(h) && a in h.arenas && h.arenas[a].Small?
    ensures exists x :: x in h.live && x in BlocksOf(a, h.arenas[a].desc)
  {
    var d := h.arenas[a].desc;
    assert ArenaOk(h, a);
    BlockCount(a, d, BlocksPerArena(d));
    var f := FreeIn(h.free[d], a, d);
    assert f <= BlocksOf(a, d) && |BlocksOf(a, d)| == BlocksPerArena(d) && |f| < BlocksPerArena(d);
    assert f != BlocksOf(a, d);
    assert !(BlocksOf(a, d) <= f);
    var x :| x in BlocksOf(a, d) && x !in f;
  }

  // ---------- the updates, and what they keep ----------

  function AllBlocks(a: nat, d: nat, n: nat): (r: seq<nat>)
    requires d < DESC_CNT
    ensures |r| == n && forall i :: 0 <= i < n ==> r[i] == Block(a, d, i)
  {
    if n == 0 then [] else AllBlocks(a, d, n - 1) + [Block(a, d, n - 1)]
  }

  /** The page allocator hands out PAGES pages at A that belong to no arena. */
  ghost predicate FreshPages(arenas: map<nat, Arena>, a: nat, pages: nat) {
    && a > 0 && a % PGSIZE == 0
    && forall b :: b in arenas ==> b + PGSIZE * Pages(arenas[b]) <= a || a + PGSIZE * pages <= b
  }

  lemma FreshNotArena(arenas: map<nat, Arena>, a: nat, pages: nat)
    requires ArenasOk(arenas) && FreshPages(arenas, a, pages) && pages > 0
    ensures a !in arenas
  {
  }

  function AddArena(h: Heap, d: nat, a: nat): Heap
    requires d < DESC_CNT && |h.free| == DESC_CNT
  {
    h.(arenas := h.arenas[a := Small(d, BlocksPerArena(d))],
       free := h.free[d := h.free[d] + AllBlocks(a, d, BlocksPerArena(d))])
  }

  function AddBig(h: Heap, a: nat, pages: nat, size: nat): Heap {
    h.(arenas := h.arenas[a := Big(pages)], live := h.live[a + HEADER := size])
  }

  /** Pops the front block of list D for a request of SIZE bytes. */
  function Take(h: Heap, d: nat, size: nat): Heap
    requires d < |h.free| && |h.free[d]| > 0
  {
    var b := h.free[d][0];
    var a := PageOf(b);
    var n := if a in h.arenas && h.arenas[a].Small? && h.arenas[a].freeCnt > 0 then h.arenas[a].freeCnt - 1 else 0;
    h.(free := h.free[d := h.free[d][1..]], arenas := h.arenas[a := Small(d, n)], live := h.live[b := size])
  }

  lemma ArenasAdd(arenas: map<nat, Arena>, a: nat, r: Arena)
    requires ArenasOk(arenas) && FreshPages(arenas, a, Pages(r))
    requires if r.Small? then r.desc < DESC_CNT else r.pages > 0
    ensures ArenasOk(arenas[a := r])
  {
    FreshNotArena(arenas, a, Pages(r));
  }

  /** No block of arena A is a block of another arena. */
  lemma ForeignBlocks(a: nat, d: nat, b: nat, e: nat, x: nat)
    requires d < DESC_CNT && e < DESC_CNT && a % PGSIZE == 0 && b % PGSIZE == 0 && a != b
    requires x in BlocksOf(a, d)
    ensures x !in BlocksOf(b, e)
  {
    hide BlocksOf;
    BlocksInside(a, d, x);
    if x in BlocksOf(b, e) {
      BlocksInside(b, e, x);
    }
  }

  lemma AllBlocksFacts(a: nat, d: nat)
    requires d < DESC_CNT
    ensures var l := AllBlocks(a, d, BlocksPerArena(d));
            && NoDup(l) && (forall x :: x in l <==> x in BlocksOf(a, d))
            && FreeIn(l, a, d) == BlocksOf(a, d) && |BlocksOf(a, d)| == BlocksPerArena(d)
  {
    var n := BlocksPerArena(d);
    var l := AllBlocks(a, d, n);
    forall i, j | 0 <= i < j < n ensures l[i] != l[j] {
      Increasing(i, j, BlockSize(d));
    }
    BlockCount(a, d, n);
    forall x ensures x in l <==> x in BlocksOf(a, d) {
      if x in BlocksOf(a, d) {
        var i :| 0 <= i < n && x == Block(a, d, i);
        assert l[i] == x;
      }
    }
  }

  lemma AddArenaKeeps(h: Heap, d: nat, a: nat)
    requires Inv0(h) && d < DESC_CNT && h.free[d] == [] && FreshPages(h.arenas, a, 1)
    ensures Inv0(AddArena(h, d, a)) && a !in h.arenas
  {
    hide BlocksOf, AllBlocks, NoDup, FreeIn, PageOf;
    FreshNotArena(h.arenas, a, 1);
    var h' := AddArena(h, d, a);
    AllBlocksFacts(a, d);
    ArenasAdd(h.arenas, a, Small(d, BlocksPerArena(d)));
    assert h'.free[d] == AllBlocks(a, d, BlocksPerArena(d));
    AddArenaFree(h, d, a);
    forall x | x in h'.live ensures LiveOk(h', x) { assert LiveOk(h, x); }
    forall b | b in h'.arenas ensures ArenaOk(h', b) {
      if b == a {
        NoLiveInFresh(h, a, d);
      } else {
        assert ArenaOk(h, b);
        AddArenaOther(h, d, a, b);
      }
    }
  }

  lemma NoLiveInFresh(h: Heap, a: nat, d: nat)
    requires Inv0(h) && d < DESC_CNT && a !in h.arenas && a % PGSIZE == 0
    ensures forall x :: x in BlocksOf(a, d) ==> x !in h.live
  {
    hide BlocksOf;
    forall x | x in BlocksOf(a, d) ensures x !in h.live {
      BlocksInside(a, d, x);
      assert x in h.live ==> LiveOk(h, x);
    }
  }

  lemma AddArenaFree(h: Heap, d: nat, a: nat)
    requires FreeOk(h) && ArenasOk(h.arenas) && d < DESC_CNT && h.free[d] == [] && a !in h.arenas && a % PGSIZE == 0
    ensures FreeOk(AddArena(h, d, a))
  {
    hide BlocksOf, AllBlocks, NoDup, PageOf;
    var h' := AddArena(h, d, a);
    AllBlocksFacts(a, d);
    assert h'.free[d] == AllBlocks(a, d, BlocksPerArena(d));
    forall x | x in h'.free[d] ensures InSmall(h'.arenas, d, x) {
      BlocksInside(a, d, x);
    }
    forall e, x | 0 <= e < DESC_CNT && e != d && x in h'.free[e] ensures InSmall(h'.arenas, e, x) {
      assert InSmall(h.arenas, e, x);
    }
  }

  lemma AddArenaOther(h: Heap, d: nat, a: nat, b: nat)
    requires FreeOk(h) && ArenasOk(h.arenas) && d < DESC_CNT && h.free[d] == [] && a !in h.arenas && a % PGSIZE == 0
    requires b in h.arenas && ArenaOk(h, b) && FreeOk(AddArena(h, d, a)) && ArenasOk(AddArena(h, d, a).arenas)
    ensures ArenaOk(AddArena(h, d, a), b)
  {
    hide BlocksOf, AllBlocks, NoDup;
    var h' := AddArena(h, d, a);
    if h.arenas[b].Small? && h.arenas[b].desc == d {
      AllBlocksFacts(a, d);
      assert h'.free[d] == AllBlocks(a, d, BlocksPerArena(d));
      forall x | x in BlocksOf(a, d) ensures x !in BlocksOf(b, d) {
        ForeignBlocks(a, d, b, d, x);
      }
      assert FreeIn(h'.free[d], b, d) == {} == FreeIn(h.free[d], b, d);
    }
  }

  /** An arena is unaffected by a change elsewhere. */
  lemma ArenaFrame(h: Heap, h': Heap, c: nat)
    requires ArenasOk(h.arenas) && FreeOk(h) && c in h.arenas && ArenaOk(h, c)
    requires ArenasOk(h'.arenas) && FreeOk(h') && c in h'.arenas && h'.arenas[c] == h.arenas[c]
    requires match h.arenas[c]
             case Small(e, _) =>
               && FreeIn(h'.free[e], c, e) == FreeIn(h.free[e], c, e)
               && (forall x :: x in BlocksOf(c, e) ==> (x in h'.live <==> x in h.live))
             case Big(_) => c + HEADER in h'.live
    ensures ArenaOk(h', c)
  {
    hide BlocksOf, NoDup, ArenasOk, FreeOk;
    match h.arenas[c]
    case Small(e, _) =>
      assert e < DESC_CNT by { DescRange(h.arenas, c); }
      FreeLists(h);
      FreeLists(h');
      forall x | x in BlocksOf(c, e) ensures x in h'.free[e] <==> x in h.free[e] {
        assert x in FreeIn(h'.free[e], c, e) <==> x in FreeIn(h.free[e], c, e);
      }
    case Big(_) =>
  }

  lemma DescRange(arenas: map<nat, Arena>, c: nat)
    requires ArenasOk(arenas) && c in arenas && arenas[c].Small?
    ensures arenas[c].desc < DESC_CNT
  {
  }

  lemma FreeLists(h: Heap)
    requires FreeOk(h)
    ensures |h.free| == DESC_CNT
  {
  }

  // --- taking a block ---

  lemma TakeFacts(h: Heap, d: nat)
    requires Inv0(h) && d < DESC_CNT && |h.free[d]| > 0
    ensures var b := h.free[d][0]; var a := PageOf(b);
            && a in h.arenas && h.arenas[a].Small? && h.arenas[a].desc == d && b in BlocksOf(a, d)
            && a % PGSIZE == 0 && ArenaOk(h, a) && h.arenas[a].freeCnt > 0
            && b in FreeIn(h.free[d], a, d) && b !in h.live
  {
    hide BlocksOf, NoDup;
    var b := h.free[d][0];
    assert b in h.free[d];
    assert InSmall(h.arenas, d, b);
    var a := PageOf(b);
    assert ArenaOk(h, a);
    assert b in FreeIn(h.free[d], a, d);
  }

  lemma TakeFree(h: Heap, d: nat, size: nat)
    requires Inv0(h) && d < DESC_CNT && |h.free[d]| > 0
    ensures ArenasOk(Take(h, d, size).arenas) && FreeOk(Take(h, d, size))
  {
    hide BlocksOf, NoDup, FreeIn, PageOf, BlockSize, ArenaOk, LiveOk;
    TakeFacts(h, d);
    var h' := Take(h, d, size);
    TailNoDup(h.free[d]);
    forall e, x | 0 <= e < DESC_CNT && x in h'.free[e] ensures InSmall(h'.arenas, e, x) {
      assert x in h.free[e];
      assert InSmall(h.arenas, e, x);
    }
  }

  lemma TakeKeeps(h: Heap, d: nat, size: nat)
    requires Inv0(h) && d < DESC_CNT && |h.free[d]| > 0 && size <= BlockSize(d)
    ensures Inv0(Take(h, d, size))
  {
    hide BlocksOf, NoDup, FreeIn, PageOf, BlockSize, FreeOk, ArenaOk;
    TakeFacts(h, d);
    FreeLists(h);
    TakeFree(h, d, size);
    TakeArenas(h, d, size);
    var h' := Take(h, d, size);
    forall x | x in h'.live ensures LiveOk(h', x) {
      if x != h.free[d][0] { assert LiveOk(h, x); }
    }
  }

  lemma TakeArenas(h: Heap, d: nat, size: nat)
    requires Inv0(h) && d < DESC_CNT && |h.free[d]| > 0
    requires ArenasOk(Take(h, d, size).arenas) && FreeOk(Take(h, d, size))
    ensures forall c :: c in Take(h, d, size).arenas ==> ArenaOk(Take(h, d, size), c)
  {
    hide BlocksOf, NoDup, FreeIn, PageOf, ArenaOk;
    TakeFacts(h, d);
    forall c | c in Take(h, d, size).arenas ensures ArenaOk(Take(h, d, size), c) {
      if c == PageOf(h.free[d][0]) {
        TakeOwn(h, d, size);
      } else {
        TakeOther(h, d, size, c);
      }
    }
  }

  lemma TakeOwn(h: Heap, d: nat, size: nat)
    requires Inv0(h) && d < DESC_CNT && |h.free[d]| > 0
    requires ArenasOk(Take(h, d, size).arenas) && FreeOk(Take(h, d, size))
    ensures ArenaOk(Take(h, d, size), PageOf(h.free[d][0]))
  {
    hide BlocksOf, NoDup, FreeIn, PageOf, ArenasOk, FreeOk;
    NoDupOf(h, d);
    TakeFacts(h, d);
    var b := h.free[d][0];
    var a := PageOf(b);
    TailNoDup(h.free[d]);
    FreeInMinus(h.free[d], a, d);
  }

  lemma NoDupIn(h: Heap, d: nat)
    requires Inv0(h) && d < DESC_CNT
    ensures |h.free| == DESC_CNT && NoDup(h.free[d])
  {
  }

  lemma NoDupOf(h: Heap, d: nat)
    requires FreeOk(h) && d < DESC_CNT
    ensures |h.free| == DESC_CNT && NoDup(h.free[d])
  {
  }

  /** Popping a block lowers its arena's count by one. */
  lemma FreeInMinus(l: seq<nat>, a: nat, d: nat)
    requires d < DESC_CNT && |l| > 0 && NoDup(l) && l[0] in BlocksOf(a, d)
    ensures |FreeIn(l[1..], a, d)| == |FreeIn(l, a, d)| - 1
  {
    hide BlocksOf, NoDup;
    TailNoDup(l);
    assert l[0] in l;
    assert FreeIn(l[1..], a, d) == FreeIn(l, a, d) - {l[0]};
  }

  lemma TakeOther(h: Heap, d: nat, size: nat, c: nat)
    requires Inv0(h) && d < DESC_CNT && |h.free[d]| > 0 && c in h.arenas && c != PageOf(h.free[d][0])
    requires ArenasOk(Take(h, d, size).arenas) && FreeOk(Take(h, d, size))
    ensures c in Take(h, d, size).arenas && ArenaOk(Take(h, d, size), c)
  {
    hide BlocksOf, NoDup, PageOf;
    TakeFacts(h, d);
    var b := h.free[d][0];
    var a := PageOf(b);
    var h' := Take(h, d, size);
    TailNoDup(h.free[d]);
    assert ArenaOk(h, c);
    if h.arenas[c].Small? {
      var e := h.arenas[c].desc;
      ForeignBlocks(a, d, c, e, b);
      assert FreeIn(h'.free[e], c, e) == FreeIn(h.free[e], c, e);
    }
  }

  // --- giving a block back ---

  /** Puts the live block P at the front of its free list and counts it as free. */
  function Give(h: Heap, p: nat): Heap
    requires PageOf(p) in h.arenas && h.arenas[PageOf(p)].Small? && h.arenas[PageOf(p)].desc < |h.free|
  {
    var a := PageOf(p);
    var d, n := h.arenas[a].desc, h.arenas[a].freeCnt;
    h.(free := h.free[d := [p] + h.free[d]], arenas := h.arenas[a := Small(d, n + 1)], live := h.live - {p})
  }

  lemma GiveFacts(h: Heap, p: nat)
    requires Inv0(h) && p in h.live && PageOf(p) in h.arenas && h.arenas[PageOf(p)].Small?
    ensures var a := PageOf(p); var d := h.arenas[a].desc;
            && d < DESC_CNT && |h.free| == DESC_CNT && a % PGSIZE == 0
            && p in BlocksOf(a, d) && p !in h.free[d] && ArenaOk(h, a) && NoDup(h.free[d])
  {
    hide BlocksOf, NoDup, PageOf;
    assert LiveOk(h, p);
    assert ArenaOk(h, PageOf(p));
  }

  lemma FreeInPlus(l: seq<nat>, a: nat, d: nat, p: nat)
    requires d < DESC_CNT && p !in l && p in BlocksOf(a, d)
    ensures |FreeIn([p] + l, a, d)| == |FreeIn(l, a, d)| + 1
  {
    hide BlocksOf;
    assert FreeIn([p] + l, a, d) == FreeIn(l, a, d) + {p};
  }

  lemma ConsNoDup(p: nat, l: seq<nat>)
    requires NoDup(l) && p !in l
    ensures NoDup([p] + l)
  {
  }

  lemma GiveFree(h: Heap, p: nat)
    requires Inv0(h) && p in h.live && PageOf(p) in h.arenas && h.arenas[PageOf(p)].Small?
    requires h.arenas[PageOf(p)].desc < |h.free|
    ensures ArenasOk(Give(h, p).arenas) && FreeOk(Give(h, p))
  {
    hide BlocksOf, NoDup, PageOf, ArenaOk, LiveOk, FreeIn;
    GiveFacts(h, p);
    var a := PageOf(p);
    var d := h.arenas[a].desc;
    var h' := Give(h, p);
    ConsNoDup(p, h.free[d]);
    forall e, x | 0 <= e < DESC_CNT && x in h'.free[e] ensures InSmall(h'.arenas, e, x) {
      if x in h.free[e] { assert InSmall(h.arenas, e, x); }
    }
  }

  lemma GiveOwn(h: Heap, p: nat)
    requires Inv0(h) && p in h.live && PageOf(p) in h.arenas && h.arenas[PageOf(p)].Small?
    requires h.arenas[PageOf(p)].desc < |h.free|
    requires ArenasOk(Give(h, p).arenas) && FreeOk(Give(h, p))
    ensures ArenaOk(Give(h, p), PageOf(p))
  {
    hide BlocksOf, NoDup, PageOf, FreeIn, ArenasOk, FreeOk, LiveOk;
    GiveFacts(h, p);
    var a := PageOf(p);
    FreeInPlus(h.free[h.arenas[a].desc], a, h.arenas[a].desc, p);
  }

  lemma GiveOther(h: Heap, p: nat, c: nat)
    requires Inv0(h) && p in h.live && PageOf(p) in h.arenas && h.arenas[PageOf(p)].Small?
    requires h.arenas[PageOf(p)].desc < |h.free|
    requires ArenasOk(Give(h, p).arenas) && FreeOk(Give(h, p)) && c in h.arenas && c != PageOf(p)
    ensures c in Give(h, p).arenas && ArenaOk(Give(h, p), c)
  {
    hide BlocksOf, NoDup, PageOf;
    hide ArenaOk, FreeIn, LiveOk;
    GiveFacts(h, p);
    var a := PageOf(p);
    var d := h.arenas[a].desc;
    assert ArenaOk(h, c);
    if h.arenas[c].Small? {
      var e := h.arenas[c].desc;
      ForeignBlocks(a, d, c, e, p);
      FreeInCons(h.free[e], p, c, e);
    } else {
      BigStart(c);
      BigLive(h, c);
    }
    ArenaFrame(h, Give(h, p), c);
  }

  lemma FreeInCons(l: seq<nat>, p: nat, c: nat, e: nat)
    requires e < DESC_CNT && p !in BlocksOf(c, e)
    ensures FreeIn([p] + l, c, e) == FreeIn(l, c, e)
  {
    hide BlocksOf;
  }

  lemma BigLive(h: Heap, c: nat)
    requires ArenasOk(h.arenas) && FreeOk(h) && c in h.arenas && ArenaOk(h, c) && h.arenas[c].Big?
    ensures c + HEADER in h.live
  {
  }

  lemma BigStart(c: nat)
    requires c % PGSIZE == 0
    ensures PageOf(c + HEADER) == c
  {
  }

  lemma GiveKeeps(h: Heap, p: nat)
    requires Inv0(h) && p in h.live && PageOf(p) in h.arenas && h.arenas[PageOf(p)].Small?
    requires h.arenas[PageOf(p)].desc < |h.free|
    ensures Inv0(Give(h, p))
  {
    hide BlocksOf, NoDup, PageOf, FreeIn, ArenaOk, FreeOk, ArenasOk, LiveOk;
    GiveFree(h, p);
    forall c | c in Give(h, p).arenas ensures ArenaOk(Give(h, p), c) {
      if c == PageOf(p) { GiveOwn(h, p); } else { GiveOther(h, p, c); }
    }
    forall x | x in Give(h, p).live ensures LiveOk(Give(h, p), x) { GiveLive(h, p, x); }
  }

  lemma GiveLive(h: Heap, p: nat, x: nat)
    requires Inv0(h) && p in h.live && PageOf(p) in h.arenas && h.arenas[PageOf(p)].Small?
    requires h.arenas[PageOf(p)].desc < |h.free| && ArenasOk(Give(h, p).arenas) && x in Give(h, p).live
    ensures LiveOk(Give(h, p), x)
  {
    hide BlocksOf, NoDup, PageOf, FreeIn, ArenaOk, FreeOk;
    assert LiveOk(h, x);
  }

  // --- giving a whole arena back ---

  ghost function Minus(l: seq<nat>, s: set<nat>): (r: seq<nat>)
    ensures forall x :: x in r <==> x in l && x !in s
  {
    if l == [] then [] else if l[0] in s then Minus(l[1..], s) else [l[0]] + Minus(l[1..], s)
  }

  lemma {:induction false} MinusNoDup(l: seq<nat>, s: set<nat>)
    requires NoDup(l)
    ensures NoDup(Minus(l, s))
  {
    if l != [] {
      TailNoDup(l);
      MinusNoDup(l[1..], s);
      if l[0] !in s { ConsNoDup(l[0], Minus(l[1..], s)); }
    }
  }

  ghost function Drop(h: Heap, a: nat): Heap
    requires a in h.arenas && h.arenas[a].Small? && h.arenas[a].desc < |h.free| == DESC_CNT
  {
    var d := h.arenas[a].desc;
    h.(free := h.free[d := Minus(h.free[d], BlocksOf(a, d))], arenas := h.arenas - {a})
  }

  /** When the count reaches the arena's size, all its blocks are free, so none is live. */
  lemma FullArena(h: Heap, a: nat)
    requires Inv0(h) && a in h.arenas && h.arenas[a].Small?
    requires h.arenas[a].freeCnt >= BlocksPerArena(h.arenas[a].desc)
    ensures var d := h.arenas[a].desc;
            && h.arenas[a].freeCnt == BlocksPerArena(d)
            && (forall x :: x in BlocksOf(a, d) ==> x in h.free[d] && x !in h.live)
  {
    hide NoDup, BlocksOf;
    var d := h.arenas[a].desc;
    assert ArenaOk(h, a);
    AllBlocksFacts(a, d);
    var f := FreeIn(h.free[d], a, d);
    SubsetFull(f, BlocksOf(a, d));
  }

  lemma SubsetFull(a: set<nat>, b: set<nat>)
    requires a <= b && |a| >= |b|
    ensures a == b
  {
    assert |b - a| == |b| - |a|;
  }

  lemma DropKeeps(h: Heap, a: nat)
    requires Inv0(h) && a in h.arenas && h.arenas[a].Small? && h.arenas[a].desc < |h.free| == DESC_CNT
    requires h.arenas[a].freeCnt >= BlocksPerArena(h.arenas[a].desc)
    ensures Inv0(Drop(h, a))
  {
    hide BlocksOf, NoDup, PageOf, FreeIn, ArenaOk, Minus;
    FullArena(h, a);
    var h' := Drop(h, a);
    DropFree(h, a);
    forall c | c in h'.arenas ensures ArenaOk(h', c) { DropOther(h, a, c); }
    forall x | x in h'.live ensures LiveOk(h', x) {
      assert LiveOk(h, x);
    }
  }

  lemma DropFree(h: Heap, a: nat)
    requires Inv0(h) && a in h.arenas && h.arenas[a].Small? && h.arenas[a].desc < |h.free| == DESC_CNT
    ensures ArenasOk(Drop(h, a).arenas) && FreeOk(Drop(h, a))
  {
    hide BlocksOf, NoDup, PageOf;
    var d, h' := h.arenas[a].desc, Drop(h, a);
    MinusNoDup(h.free[d], BlocksOf(a, d));
    forall e, x | 0 <= e < DESC_CNT && x in h'.free[e] ensures InSmall(h'.arenas, e, x) {
      assert x in h.free[e];
      assert InSmall(h.arenas, e, x);
    }
  }

  lemma DropOther(h: Heap, a: nat, c: nat)
    requires Inv0(h) && a in h.arenas && h.arenas[a].Small? && h.arenas[a].desc < |h.free| == DESC_CNT
    requires c in h.arenas && c != a && ArenasOk(Drop(h, a).arenas) && FreeOk(Drop(h, a))
    ensures ArenaOk(Drop(h, a), c)
  {
    hide BlocksOf, NoDup, PageOf, ArenaOk, FreeIn, LiveOk, Minus;
    var d := h.arenas[a].desc;
    assert ArenaOk(h, c);
    if h.arenas[c].Small? && h.arenas[c].desc == d {
      forall x | x in BlocksOf(c, d) ensures x !in BlocksOf(a, d) {
        ForeignBlocks(c, d, a, d, x);
      }
      FreeInMinusSet(h.free[d], BlocksOf(a, d), c, d);
    } else if h.arenas[c].Big? {
      BigLive(h, c);
    }
    ArenaFrame(h, Drop(h, a), c);
  }

  lemma FreeInMinusSet(l: seq<nat>, s: set<nat>, c: nat, d: nat)
    requires d < DESC_CNT && forall x :: x in BlocksOf(c, d) ==> x !in s
    ensures FreeIn(Minus(l, s), c, d) == FreeIn(l, c, d)
  {
    hide BlocksOf;
  }

  /** list_remove: takes out the first occurrence of X. */
  function Without(l: seq<nat>, x: nat): seq<nat> {
    if l == [] then [] else if l[0] == x then l[1..] else [l[0]] + Without(l[1..], x)
  }

  lemma {:induction false} MinusNothing(l: seq<nat>, s: set<nat>)
    requires forall x :: x in l ==> x !in s
    ensures Minus(l, s) == l
  {
    if l != [] {
      assert l[0] in l && forall x :: x in l[1..] ==> x in l;
      MinusNothing(l[1..], s);
    }
  }

  /** Removing one more block from a list without repetitions. */
  lemma {:induction false} WithoutMinus(l: seq<nat>, s: set<nat>, x: nat)
    requires NoDup(l) && x !in s
    ensures Without(Minus(l, s), x) == Minus(l, s + {x})
  {
    hide NoDup;
    if l != [] {
      TailNoDup(l);
      WithoutMinus(l[1..], s, x);
      if l[0] == x {
        MinusSame(l[1..], s, x);
      }
    }
  }

  lemma {:induction false} MinusSame(l: seq<nat>, s: set<nat>, x: nat)
    requires x !in l
    ensures Minus(l, s + {x}) == Minus(l, s)
  {
    if l != [] {
      assert l[0] in l && forall y :: y in l[1..] ==> y in l;
      MinusSame(l[1..], s, x);
    }
  }

  /** The first N blocks of arena A. */
  ghost function FirstBlocks(a: nat, d: nat, n: nat): set<nat>
    requires d < DESC_CNT
  {
    set i | 0 <= i < n :: Block(a, d, i)
  }

  lemma FirstBlocksGrow(a: nat, d: nat, n: nat)
    requires d < DESC_CNT
    ensures FirstBlocks(a, d, 0) == {} && FirstBlocks(a, d, n + 1) == FirstBlocks(a, d, n) + {Block(a, d, n)}
    ensures Block(a, d, n) !in FirstBlocks(a, d, n)
    ensures FirstBlocks(a, d, BlocksPerArena(d)) == BlocksOf(a, d)
  {
    forall i | 0 <= i < n ensures Block(a, d, i) != Block(a, d, n) {
      Increasing(i, n, BlockSize(d));
    }
  }

  /** Freeing a block that leaves its arena in use keeps every small arena in use. */
  lemma GiveStrict(h: Heap, p: nat)
    requires Inv(h) && p in h.live && PageOf(p) in h.arenas && h.arenas[PageOf(p)].Small?
    requires h.arenas[PageOf(p)].desc < |h.free| && Inv0(Give(h, p))
    requires h.arenas[PageOf(p)].freeCnt + 1 < BlocksPerArena(h.arenas[PageOf(p)].desc)
    ensures Inv(Give(h, p))
  {
    hide Inv0, PageOf;
  }

  /** Freeing the last live block of an arena, and then the arena, does so as well. */
  lemma DropStrict(h: Heap, p: nat)
    requires Inv(h) && p in h.live && PageOf(p) in h.arenas && h.arenas[PageOf(p)].Small?
    requires h.arenas[PageOf(p)].desc < |h.free| == DESC_CNT
    requires Inv0(Drop(Give(h, p), PageOf(p)))
    ensures Inv(Drop(Give(h, p), PageOf(p)))
  {
    hide Inv0, PageOf;
  }

  /** P is the only live block of its arena. */
  ghost predicate OnlyLive(h: Heap, p: nat) {
    forall x :: x in h.live && PageOf(x) == PageOf(p) ==> x == p
  }

  lemma OnlyLiveWith(h: Heap, h': Heap, p: nat, x: nat)
    requires x !in h.live && h'.live.Keys == h.live.Keys + {x} && p in h.live
    ensures OnlyLive(h', p) <==> OnlyLive(h, p) && PageOf(x) != PageOf(p)
  {
    hide PageOf;
  }

  lemma BigOnly(h: Heap, p: nat)
    requires Inv0(h) && p in h.live && PageOf(p) in h.arenas && h.arenas[PageOf(p)].Big?
    ensures OnlyLive(h, p)
  {
    hide PageOf, BlocksOf, FreeOk, ArenaOk;
    forall x | x in h.live && PageOf(x) == PageOf(p) ensures x == p {
      assert LiveOk(h, x) && LiveOk(h, p);
    }
  }

  /** A small arena's count says whether P is its only live block. */
  lemma SmallOnly(h: Heap, p: nat)
    requires Inv0(h) && p in h.live && PageOf(p) in h.arenas && h.arenas[PageOf(p)].Small?
    requires h.arenas[PageOf(p)].desc < |h.free| == DESC_CNT && Inv0(Give(h, p))
    ensures var r := h.arenas[PageOf(p)]; OnlyLive(h, p) <==> r.freeCnt + 1 >= BlocksPerArena(r.desc)
  {
    hide PageOf, BlocksOf, Inv0;
    var a := PageOf(p);
    var d := h.arenas[a].desc;
    var h' := Give(h, p);
    if h.arenas[a].freeCnt + 1 >= BlocksPerArena(d) {
      FullArena(h', a);
      forall x | x in h.live && PageOf(x) == a ensures x == p {
        LiveBlock(h, x);
      }
    } else {
      var x := LiveLeft(h', a);
      LiveBlock(h', x);
      OneArena(h, a, d, x);
    }
  }

  lemma OneArena(h: Heap, a: nat, d: nat, x: nat)
    requires Inv0(h) && a in h.arenas && d < DESC_CNT && x in BlocksOf(a, d)
    ensures PageOf(x) == a
  {
    hide BlocksOf;
    BlocksInside(a, d, x);
  }

  lemma LiveBlock(h: Heap, x: nat)
    requires Inv0(h) && x in h.live
    ensures var a := PageOf(x);
            a in h.arenas && (h.arenas[a].Small? ==> h.arenas[a].desc < DESC_CNT && x in BlocksOf(a, h.arenas[a].desc))
  {
    hide BlocksOf, PageOf;
    assert LiveOk(h, x);
  }

  lemma LiveLeft(h: Heap, a: nat) returns (x: nat)
    requires Inv0(h) && a in h.arenas && h.arenas[a].Small?
    requires h.arenas[a].desc < DESC_CNT && h.arenas[a].freeCnt < BlocksPerArena(h.arenas[a].desc)
    ensures x in h.live && x in BlocksOf(a, h.arenas[a].desc)
  {
    hide BlocksOf, NoDup, LiveOk;
    var d := h.arenas[a].desc;
    assert ArenaOk(h, a);
    AllBlocksFacts(a, d);
    var f := FreeIn(h.free[d], a, d);
    assert f != BlocksOf(a, d) && f <= BlocksOf(a, d);
    x :| x in BlocksOf(a, d) && x !in f;
  }

  lemma RemoveBigStrict(h: Heap, p: nat)
    requires Inv(h) && p in h.live && Inv0(RemoveBig(h, p))
    ensures Inv(RemoveBig(h, p))
  {
    hide Inv0, PageOf;
  }

  // --- big blocks ---

  /** DIV_ROUND_UP (size + sizeof *a, PGSIZE), in 64-bit arithmetic. */
  function PageCount(size: nat): nat {
    ((size + HEADER) % SIZE_MAX1 + PGSIZE - 1) % SIZE_MAX1 / PGSIZE
  }

  /** The rounding to whole pages overflows. */
  predicate Wraps(size: nat) { size + HEADER + PGSIZE - 1 >= SIZE_MAX1 }

  /** The pages are enough for the request exactly when the rounding does not wrap around. */
  lemma PageCountEnoughIff(size: nat)
    requires 1024 < size < SIZE_MAX1
    ensures size + HEADER <= PGSIZE * PageCount(size) <==> !Wraps(size)
  {
  }

  /** A block that got too few pages breaks the invariant. */
  lemma TooFewPages(h: Heap, a: nat, size: nat)
    requires 1024 < size < SIZE_MAX1 && Wraps(size) && a % PGSIZE == 0
    ensures !Inv(AddBig(h, a, PageCount(size), size))
  {
    hide Inv, PageCount;
    PageCountEnoughIff(size);
    if Inv(AddBig(h, a, PageCount(size), size)) {
      BigFits(h, a, PageCount(size), size);
    }
  }

  lemma BigFits(h: Heap, a: nat, pages: nat, size: nat)
    requires Inv(AddBig(h, a, pages, size)) && a % PGSIZE == 0
    ensures size + HEADER <= PGSIZE * pages
  {
    hide FreeOk, ArenaOk, PageOf;
    BigStart(a);
    assert LiveOk(AddBig(h, a, pages, size), a + HEADER);
  }

  lemma AddBigKeeps(h: Heap, a: nat, pages: nat, size: nat)
    requires Inv0(h) && pages > 0 && FreshPages(h.arenas, a, pages) && size <= PGSIZE * pages - HEADER
    ensures Inv0(AddBig(h, a, pages, size)) && a !in h.arenas && a + HEADER !in h.live
  {
    hide BlocksOf, NoDup, FreeIn, ArenaOk, PageOf;
    FreshNotArena(h.arenas, a, pages);
    BigStart(a);
    ArenasAdd(h.arenas, a, Big(pages));
    var h' := AddBig(h, a, pages, size);
    SmallFreeKept(h, h');
    hide FreeOk;
    forall x | x in h'.live ensures LiveOk(h', x) {
      if x != a + HEADER { assert LiveOk(h, x); }
    }
    forall c | c in h'.arenas ensures ArenaOk(h', c) {
      if c == a { BigIsOk(h', a); } else { AddBigOther(h, a, pages, size, c); }
    }
  }

  lemma SmallFreeKept(h: Heap, h': Heap)
    requires FreeOk(h) && h'.free == h.free
    requires forall a :: a in h.arenas && h.arenas[a].Small? ==> a in h'.arenas && h'.arenas[a] == h.arenas[a]
    ensures FreeOk(h')
  {
    hide BlocksOf, NoDup, PageOf;
    forall d, x | 0 <= d < DESC_CNT && x in h'.free[d] ensures InSmall(h'.arenas, d, x) {
      assert InSmall(h.arenas, d, x);
    }
  }

  lemma BigIsOk(h: Heap, a: nat)
    requires ArenasOk(h.arenas) && FreeOk(h) && a in h.arenas && h.arenas[a].Big? && a + HEADER in h.live
    ensures ArenaOk(h, a)
  {
  }

  lemma AddBigOther(h: Heap, a: nat, pages: nat, size: nat, c: nat)
    requires Inv0(h) && a !in h.arenas && a % PGSIZE == 0 && c in h.arenas
    requires ArenasOk(AddBig(h, a, pages, size).arenas) && FreeOk(AddBig(h, a, pages, size))
    ensures ArenaOk(AddBig(h, a, pages, size), c)
  {
    hide BlocksOf, NoDup, FreeIn, ArenaOk, PageOf, LiveOk;
    assert ArenaOk(h, c);
    if h.arenas[c].Small? {
      var e := h.arenas[c].desc;
      forall x | x in BlocksOf(c, e) ensures x != a + HEADER {
        BlocksInside(c, e, x);
        BigStart(a);
      }
    } else {
      BigLive(h, c);
    }
    ArenaFrame(h, AddBig(h, a, pages, size), c);
  }

  function RemoveBig(h: Heap, p: nat): Heap {
    h.(arenas := h.arenas - {PageOf(p)}, live := h.live - {p})
  }

  lemma RemoveBigKeeps(h: Heap, p: nat)
    requires Inv0(h) && p in h.live && PageOf(p) in h.arenas && h.arenas[PageOf(p)].Big?
    ensures Inv0(RemoveBig(h, p))
  {
    hide BlocksOf, NoDup, FreeIn, ArenaOk, PageOf, FreeOk, LiveOk, ArenasOk;
    var a, h' := PageOf(p), RemoveBig(h, p);
    ArenasDrop(h.arenas, a);
    SmallFreeKept(h, h');
    forall x | x in h'.live ensures LiveOk(h', x) { RemoveBigLive(h, p, x); }
    forall c | c in h'.arenas ensures ArenaOk(h', c) { RemoveBigOther(h, p, c); }
  }

  lemma ArenasDrop(arenas: map<nat, Arena>, a: nat)
    requires ArenasOk(arenas)
    ensures ArenasOk(arenas - {a})
  {
  }

  lemma RemoveBigLive(h: Heap, p: nat, x: nat)
    requires Inv0(h) && p in h.live && PageOf(p) in h.arenas && h.arenas[PageOf(p)].Big?
    requires x in h.live && x != p && ArenasOk(RemoveBig(h, p).arenas)
    ensures LiveOk(RemoveBig(h, p), x)
  {
    hide BlocksOf, FreeOk, ArenaOk;
    assert LiveOk(h, x) && LiveOk(h, p);
  }

  lemma RemoveBigOther(h: Heap, p: nat, c: nat)
    requires Inv0(h) && p in h.live && PageOf(p) in h.arenas && h.arenas[PageOf(p)].Big? && c in h.arenas && c != PageOf(p)
    requires ArenasOk(RemoveBig(h, p).arenas) && FreeOk(RemoveBig(h, p))
    ensures ArenaOk(RemoveBig(h, p), c)
  {
    hide BlocksOf, NoDup, FreeIn, ArenaOk, PageOf;
    assert ArenaOk(h, c) && LiveOk(h, p);
    if h.arenas[c].Small? {
      var e := h.arenas[c].desc;
      forall x | x in BlocksOf(c, e) ensures x != p {
        BlocksInside(c, e, x);
      }
    } else {
      BigLive(h, c);
      BigStart(c);
    }
    ArenaFrame(h, RemoveBig(h, p), c);
  }

  // ---------- the allocator object ----------

  datatype Desc = Desc(blockSize: nat, blocksPerArena: nat)

  /** The descriptor a request of SIZE bytes is served from; DESC_CNT if none is big enough. */
  ghost predicate Serves(d: nat, size: nat) {
    && d <= DESC_CNT
    && (d < DESC_CNT ==> size <= BlockSize(d))
    && (forall e :: 0 <= e < d ==> BlockSize(e) < size)
  }

  /** Every arena is still there, of the same kind. */
  ghost predicate ArenasKept(before: map<nat, Arena>, after: map<nat, Arena>) {
    forall a :: a in before ==>
      && a in after
      && (match before[a]
          case Small(d, _) => after[a].Small? && after[a].desc == d
          case Big(_) => after[a] == before[a])
  }

  /** COPIED bytes hold all that was stored in a block of arena R and still fits, and no more than the block. */
  ghost predicate CopiesAll(r: Arena, oldSize: nat, newSize: nat, copied: nat) {
    && (oldSize <= copied || copied == newSize) && copied <= newSize
    && (r.Small? ==> r.desc < DESC_CNT) && copied <= Capacity(r)
  }

  // --- what callers stored in their blocks ---

  type Memory = nat -> nat

  /** The N bytes from address X on. */
  function Bytes(m: Memory, x: nat, n: nat): seq<nat> { seq(n, k requires 0 <= k < n => m(x + k)) }

  /** memcpy. */
  function Copied(m: Memory, dst: nat, src: nat, n: nat): Memory {
    (x: nat) => if dst <= x < dst + n then m(src + (x - dst)) else m(x)
  }

  /** Copying into one live block, within what was asked for it, leaves every other live block alone. */
  lemma CopyStays(h: Heap, m: Memory, dst: nat, src: nat, n: nat, x: nat)
    requires Inv0(h) && dst in h.live && n <= h.live[dst] && x in h.live && x != dst
    ensures Bytes(Copied(m, dst, src, n), x, h.live[x]) == Bytes(m, x, h.live[x])
  {
    hide Inv0, Capacity, PageOf, Copied, Bytes;
    LiveInside(h, x);
    LiveInside(h, dst);
    if x < dst { LiveBlocksApart(h, x, dst); } else { LiveBlocksApart(h, dst, x); }
    CopyElsewhere(m, dst, src, n, x, h.live[x]);
  }

  lemma CopyElsewhere(m: Memory, dst: nat, src: nat, n: nat, x: nat, k: nat)
    requires x + k <= dst || dst + n <= x
    ensures Bytes(Copied(m, dst, src, n), x, k) == Bytes(m, x, k)
  {
  }

  lemma CopyArrives(m: Memory, dst: nat, src: nat, n: nat)
    ensures Bytes(Copied(m, dst, src, n), dst, n) == Bytes(m, src, n)
  {
  }

  class Allocator {
    var descs: seq<Desc>
    var free: seq<seq<nat>>
    var arenas: map<nat, Arena>
    var memory: Memory          // what callers stored; the allocator's own writes are left out
    ghost var live: map<nat, nat>

    ghost function View(): Heap
      reads this
    {
      Heap(free, arenas, live)
    }

    ghost predicate DescsOk()
      reads this
    {
      |descs| == DESC_CNT && forall d :: 0 <= d < DESC_CNT ==> descs[d] == Desc(BlockSize(d), BlocksPerArena(d))
    }

    ghost predicate Valid()
      reads this
    {
      DescsOk() && Inv(View())
    }

    /** malloc_init. */
    constructor (memory: Memory)
      ensures Valid() && live == map[] && arenas == map[] && this.memory == memory
    {
      this.memory := memory;
      var ds, fs := [], [];
      var blockSize := 16;
      while blockSize < PGSIZE / 2
        invariant |ds| == |fs| <= DESC_CNT
        invariant blockSize == if |ds| < DESC_CNT then BlockSize(|ds|) else 2048
        invariant forall d :: 0 <= d < |ds| ==> ds[d] == Desc(BlockSize(d), BlocksPerArena(d)) && fs[d] == []
        decreases DESC_CNT - |ds|
      {
        ds := ds + [Desc(blockSize, (PGSIZE - HEADER) / blockSize)];
        fs := fs + [[]];
        blockSize := blockSize * 2;
      }
      descs, free, arenas, live := ds, fs, map[], map[];
    }

    method FindDesc(size: nat) returns (d: nat)
      requires DescsOk()
      ensures Serves(d, size)
    {
      d := 0;
      while d < |descs|
        invariant d <= |descs| && forall e :: 0 <= e < d ==> BlockSize(e) < size
      {
        if descs[d].blockSize >= size {
          break;
        }
        d := d + 1;
      }
    }

    /** malloc. GOT is what the page allocator answers if it is asked. The heap stays consistent exactly
        when nothing is allocated or the page count does not wrap around. */
    method Malloc(size: nat, got: Option<nat>) returns (r: Option<nat>)
      requires Valid() && size < SIZE_MAX1
      requires got.Some? ==> FreshPages(arenas, got.value, if size <= 1024 then 1 else PageCount(size))
      modifies this
      ensures descs == old(descs) && memory == old(memory)
      ensures Valid() <==> r == None || !Wraps(size)
      ensures size == 0 ==> r == None
      ensures r == None ==> View() == old(View())
      ensures r.Some? ==> live == old(live)[r.value := size]
      ensures r.Some? && !Wraps(size) ==> r.value !in old(live) && ArenasKept(old(arenas), arenas)
      ensures size > 1024 ==> (r.Some? <==> got.Some?)
      ensures forall d: nat :: 0 < size && Serves(d, size) && d < DESC_CNT && d < |old(free)| ==>
        (r == None <==> |old(free)[d]| == 0 && got == None)
    {
      hide Inv, Inv0;
      if size == 0 {
        return None;
      }
      InvLists(View());
      var d := FindDesc(size);
      LargestDesc(d, size);
      ServesOnce(size);
      if d == |descs| {
        r := BigMalloc(size, got);
        return;
      }
      if |free[d]| == 0 {
        if got == None {
          return None;
        }
        NewArena(d, got.value);
      } else {
        FilledList(View(), d);
      }
      var b := PopBlock(d, size);
      r := Some(b);
    }

    method BigMalloc(size: nat, got: Option<nat>) returns (r: Option<nat>)
      requires Valid() && 1024 < size < SIZE_MAX1
      requires got.Some? ==> FreshPages(arenas, got.value, PageCount(size))
      modifies this`arenas, this`live
      ensures r.Some? <==> got.Some?
      ensures Valid() <==> r == None || !Wraps(size)
      ensures r == None ==> View() == old(View())
      ensures r.Some? ==> live == old(live)[r.value := size]
      ensures r.Some? && !Wraps(size) ==> r.value !in old(live) && ArenasKept(old(arenas), arenas)
    {
      hide Inv, Inv0, FreshPages, PageCount, PageOf, ArenasKept, Wraps;
      var pageCnt := PageCount(size);
      if got == None {
        return None;
      }
      var a := got.value;
      ghost var h := View();
      BigAdded(h, a, size);
      arenas := arenas[a := Big(pageCnt)];
      live := live[a + HEADER := size];
      assert View() == AddBig(h, a, pageCnt, size);
      r := Some(a + HEADER);
    }

    /** Fills the empty list D from a new page. */
    method NewArena(d: nat, a: nat)
      requires Valid() && d < DESC_CNT && d < |free| && free[d] == [] && FreshPages(arenas, a, 1)
      modifies this`arenas, this`free
      ensures DescsOk() && Inv0(View()) && |free| == DESC_CNT && |free[d]| > 0 && ReadyToTake(View(), d)
      ensures live == old(live) && ArenasKept(old(arenas), arenas)
    {
      hide BlockSize, FreshPages, Inv, Inv0, BlocksPerArena, Block, ReadyToTake, PageOf, AllBlocks;
      ghost var h := View();
      InvLists(h);
      PagesAligned(arenas, a, 1);
      MoreBlocks(a, d, 0);
      AddArenaKeeps(h, d, a);
      AddArenaReady(h, d, a);
      var list := free[d];
      var i := 0;
      while i < descs[d].blocksPerArena
        invariant 0 <= i <= BlocksPerArena(d) && View() == h && DescsOk() && list == AllBlocks(a, d, i)
      {
        MoreBlocks(a, d, i);
        list := list + [Block(a, d, i)];
        i := i + 1;
      }
      assert h.free[d] + list == list by { NoneFirst(list); }
      free := free[d := list];
      arenas := arenas[a := Small(d, descs[d].blocksPerArena)];
      assert View() == AddArena(h, d, a);
    }

    /** Pops the front block of list D. */
    method PopBlock(d: nat, size: nat) returns (b: nat)
      requires DescsOk() && Inv0(View()) && d < DESC_CNT && d < |free| && |free[d]| > 0 && ReadyToTake(View(), d)
      requires size <= BlockSize(d)
      modifies this`arenas, this`free, this`live
      ensures Valid() && b !in old(live) && live == old(live)[b := size] && ArenasKept(old(arenas), arenas)
    {
      hide BlockSize, BlocksOf, BlocksPerArena, Inv0, Inv, ReadyToTake, ArenaOk, FreeIn, FreeOk, ArenasOk, PageOf;
      ghost var h := View();
      TakeFacts(h, d);
      TakeKeeps(h, d, size);
      TakeStrict(h, d, size);
      b := free[d][0];
      var a := PageOf(b);
      free := free[d := free[d][1..]];
      arenas := arenas[a := Small(d, arenas[a].freeCnt - 1)];
      live := live[b := size];
      assert View() == Take(h, d, size);
    }

    /** free. PAGES are the arena address and the number of pages given back to the page allocator. */
    method Free(p: Option<nat>) returns (pages: Option<(nat, nat)>)
      requires Valid() && (p.Some? ==> p.value in live)
      modifies this
      ensures Valid() && descs == old(descs) && memory == old(memory)
      ensures p == None ==> View() == old(View()) && pages == None
      ensures p.Some? ==> live == old(live) - {p.value}
      ensures p.Some? ==> (pages.Some? <==> OnlyLive(old(View()), p.value))
      ensures pages == None ==> arenas.Keys == old(arenas).Keys
      ensures pages.Some? ==>
        && pages.value.0 == PageOf(p.value) && pages.value.0 in old(arenas)
        && pages.value.1 == Pages(old(arenas)[pages.value.0]) && arenas == old(arenas) - {pages.value.0}
    {
      hide Inv, Inv0, BlocksOf, PageOf, OnlyLive, BlocksPerArena;
      if p == None {
        return None;
      }
      ghost var h := View();
      InvLists(h);
      LiveBlock(h, p.value);
      var a := PageOf(p.value);
      if arenas[a].Small? {
        pages := FreeSmall(p.value);
      } else {
        BigOnly(h, p.value);
        RemoveBigKeeps(h, p.value);
        RemoveBigStrict(h, p.value);
        pages := Some((a, arenas[a].pages));
        arenas := arenas - {a};
        live := live - {p.value};
        assert View() == RemoveBig(h, p.value);
      }
    }

    method FreeSmall(p: nat) returns (pages: Option<(nat, nat)>)
      requires Valid() && p in live && PageOf(p) in arenas && arenas[PageOf(p)].Small?
      requires arenas[PageOf(p)].desc < DESC_CNT
      modifies this`free, this`arenas, this`live
      ensures Valid() && live == old(live) - {p}
      ensures pages.Some? <==> OnlyLive(old(View()), p)
      ensures pages == None ==> arenas.Keys == old(arenas).Keys
      ensures pages.Some? ==> pages.value == (PageOf(p), 1) && arenas == old(arenas) - {PageOf(p)}
    {
      hide Inv, Inv0, BlocksOf, PageOf, OnlyLive, BlocksPerArena, Block, NoDup, Minus;
      ghost var h := View();
      InvLists(h);
      GiveKeeps(h, p);
      SmallOnly(h, p);
      var a := PageOf(p);
      var d, n := arenas[a].desc, arenas[a].freeCnt;
      free := free[d := [p] + free[d]];
      arenas := arenas[a := Small(d, n + 1)];
      live := live - {p};
      assert View() == Give(h, p);
      pages := None;
      if n + 1 >= descs[d].blocksPerArena {
        NoDupIn(View(), d);
        DropKeeps(View(), a);
        DropStrict(h, p);
        RemoveBlocks(a, d);
        arenas := arenas - {a};
        pages := Some((a, 1));
        assert View() == Drop(Give(h, p), a);
        assert arenas == old(arenas) - {a};
      } else {
        GiveStrict(h, p);
      }
    }

    /** Takes every block of arena A off list D, one after the other. */
    method RemoveBlocks(a: nat, d: nat)
      requires DescsOk() && d < DESC_CNT && |free| == DESC_CNT && NoDup(free[d])
      modifies this`free
      ensures free == old(free)[d := Minus(old(free)[d], BlocksOf(a, d))]
    {
      hide NoDup, BlocksOf, Block, Minus, FirstBlocks, BlocksPerArena;
      var list := free[d];
      FirstBlocksGrow(a, d, 0);
      MinusNothing(list, {});
      var i := 0;
      while i < descs[d].blocksPerArena
        invariant 0 <= i <= BlocksPerArena(d) && DescsOk() && free == old(free)
        invariant list == Minus(free[d], FirstBlocks(a, d, i))
      {
        FirstBlocksGrow(a, d, i);
        WithoutMinus(free[d], FirstBlocks(a, d, i), Block(a, d, i));
        list := Without(list, Block(a, d, i));
        i := i + 1;
      }
      FirstBlocksGrow(a, d, i);
      free := free[d := list];
    }

    /** block_size. */
    method SizeOf(p: nat) returns (n: nat)
      requires Valid() && p in live
      ensures PageOf(p) in arenas && (arenas[PageOf(p)].Small? ==> arenas[PageOf(p)].desc < DESC_CNT)
      ensures n == Capacity(arenas[PageOf(p)]) && live[p] <= n
    {
      hide BlocksOf, BlocksPerArena;
      assert LiveOk(View(), p);
      var r := arenas[PageOf(p)];
      if r.Small? {
        n := descs[r.desc].blockSize;
      } else {
        n := PGSIZE * r.pages - p % PGSIZE;
      }
    }

    /** realloc. It fails exactly when malloc does. COPIED is the number of bytes copied from the old block to
        the new one: everything the caller may have stored that still fits, and never past the end of either
        block. They arrive, every other live block keeps its bytes, and the old block's pages go back if it
        was alone in its arena and the new block is not in it. */
    method Realloc(p: Option<nat>, newSize: nat, got: Option<nat>)
      returns (r: Option<nat>, copied: nat, pages: Option<(nat, nat)>)
      requires Valid() && newSize < SIZE_MAX1 && (p.Some? ==> p.value in live)
      requires Wraps(newSize) ==> p == None || got == None
      requires got.Some? ==> FreshPages(arenas, got.value, if newSize <= 1024 then 1 else PageCount(newSize))
      modifies this
      ensures descs == old(descs)
      ensures Valid() <==> r == None || !Wraps(newSize)
      ensures newSize == 0 ==> r == None && live == (if p.Some? then old(live) - {p.value} else old(live))
      ensures newSize > 0 && r == None ==> View() == old(View()) && pages == None
      ensures newSize > 1024 ==> (r.Some? <==> got.Some?)
      ensures forall d: nat :: 0 < newSize && Serves(d, newSize) && d < DESC_CNT && d < |old(free)| ==>
        (r == None <==> |old(free)[d]| == 0 && got == None)
      ensures r.Some? && !Wraps(newSize) ==> r.value !in old(live)
      ensures newSize == 0 ==> (pages.Some? <==> p.Some? && OnlyLive(old(View()), p.value))
      ensures newSize > 0 ==>
        (pages.Some? <==> r.Some? && p.Some? && OnlyLive(old(View()), p.value) && PageOf(r.value) != PageOf(p.value))
      ensures newSize > 0 && r.Some? && p == None ==> live == old(live)[r.value := newSize] && copied == 0
      ensures newSize > 0 && r.Some? && p.Some? ==>
        && live == (old(live) - {p.value})[r.value := newSize]
        && PageOf(p.value) in old(arenas) && CopiesAll(old(arenas)[PageOf(p.value)], old(live)[p.value], newSize, copied)
        && Bytes(memory, r.value, copied) == Bytes(old(memory), p.value, copied)
      ensures !Wraps(newSize) ==> forall x :: x in live && Some(x) != r ==>
        Bytes(memory, x, live[x]) == Bytes(old(memory), x, live[x])
    {
      hide Inv, Inv0, PageOf, BlocksOf, OnlyLive, FreshPages, PageCount, Serves, BlockSize, BlocksPerArena, Bytes, Copied;
      r, copied, pages := None, 0, None;
      if newSize == 0 {
        pages := Free(p);
      } else {
        ghost var h := View();
        InvLists(h);
        if p.Some? { LiveBlock(h, p.value); }
        r := Malloc(newSize, got);
        if p.Some? && r.Some? {
          var oldSize := SizeOf(p.value);
          copied := if newSize < oldSize then newSize else oldSize;
          forall x | x in live && x != r.value
            ensures Bytes(Copied(memory, r.value, p.value, copied), x, live[x]) == Bytes(memory, x, live[x]) {
            CopyStays(View(), memory, r.value, p.value, copied, x) by { InvWeak(View()); }
          }
          CopyArrives(memory, r.value, p.value, copied);
          memory := Copied(memory, r.value, p.value, copied);
          OnlyLiveWith(h, View(), p.value, r.value);
          pages := Free(p);
        }
      }
    }
  }

  lemma MoreBlocks(a: nat, d: nat, i: nat)
    requires d < DESC_CNT
    ensures AllBlocks(a, d, 0) == [] && AllBlocks(a, d, i + 1) == AllBlocks(a, d, i) + [Block(a, d, i)]
  {
  }

  lemma NoneFirst(l: seq<nat>)
    ensures [] + l == l
  {
  }

  lemma BigAdded(h: Heap, a: nat, size: nat)
    requires Inv(h) && 1024 < size < SIZE_MAX1 && FreshPages(h.arenas, a, PageCount(size))
    ensures var g := AddBig(h, a, PageCount(size), size);
            && (Inv(g) <==> !Wraps(size))
            && (!Wraps(size) ==> a + HEADER !in h.live && ArenasKept(h.arenas, g.arenas))
  {
    PageCountEnoughIff(size);
    hide Inv, Inv0, FreshPages, PageCount, PageOf, ArenasKept;
    if Wraps(size) {
      PagesAligned(h.arenas, a, PageCount(size));
      TooFewPages(h, a, size);
    } else {
      InvWeak(h);
      AddBigKeeps(h, a, PageCount(size), size);
      AddBigStrict(h, a, PageCount(size), size);
    }
  }

  lemma AddBigStrict(h: Heap, a: nat, pages: nat, size: nat)
    requires Inv(h) && Inv0(AddBig(h, a, pages, size)) && a !in h.arenas
    ensures Inv(AddBig(h, a, pages, size)) && ArenasKept(h.arenas, AddBig(h, a, pages, size).arenas)
  {
    hide Inv0;
  }

  lemma InvWeak(h: Heap)
    requires Inv(h)
    ensures Inv0(h)
  {
    hide Inv0;
  }

  lemma PagesAligned(arenas: map<nat, Arena>, a: nat, pages: nat)
    requires FreshPages(arenas, a, pages)
    ensures a % PGSIZE == 0
  {
  }

  lemma InvLists(h: Heap)
    requires Inv(h)
    ensures |h.free| == DESC_CNT && Inv0(h)
  {
  }

  lemma ServesOnce(size: nat)
    ensures forall d, e :: Serves(d, size) && Serves(e, size) ==> d == e
  {
  }

  lemma LargestDesc(d: nat, size: nat)
    requires Serves(d, size)
    ensures d == DESC_CNT <==> size > 1024
  {
    assert BlockSize(6) == 1024;
  }

  /** Popping from list D leaves every small arena with a live block. */
  ghost predicate ReadyToTake(h: Heap, d: nat)
    requires d < |h.free| && |h.free[d]| > 0
  {
    forall a :: a in h.arenas && h.arenas[a].Small? && a != PageOf(h.free[d][0]) && h.arenas[a].desc < DESC_CNT ==>
      h.arenas[a].freeCnt < BlocksPerArena(h.arenas[a].desc)
  }

  lemma FilledList(h: Heap, d: nat)
    requires Inv(h) && d < |h.free| && |h.free[d]| > 0
    ensures ReadyToTake(h, d)
  {
  }

  lemma AddArenaReady(h: Heap, d: nat, a: nat)
    requires Inv(h) && d < DESC_CNT && h.free[d] == [] && a % PGSIZE == 0
    ensures var h' := AddArena(h, d, a); d < |h'.free| && |h'.free[d]| > 0 && ReadyToTake(h', d)
  {
    hide LiveOk, ArenaOk, BlocksOf, NoDup;
    var l := AllBlocks(a, d, BlocksPerArena(d));
    assert [] + l == l;
    assert l[0] == Block(a, d, 0);
    BlockInside(a, d, 0);
  }

  lemma TakeStrict(h: Heap, d: nat, size: nat)
    requires Inv0(h) && d < DESC_CNT && |h.free[d]| > 0 && ReadyToTake(h, d)
    requires Inv0(Take(h, d, size))
    ensures Inv(Take(h, d, size))
  {
    hide BlocksOf, PageOf;
    TakeFacts(h, d);
    var a := PageOf(h.free[d][0]);
    CountBound(h, a);
  }

  lemma CountBound(h: Heap, a: nat)
    requires Inv0(h) && a in h.arenas && h.arenas[a].Small?
    ensures h.arenas[a].desc < DESC_CNT && h.arenas[a].freeCnt <= BlocksPerArena(h.arenas[a].desc)
  {
    hide BlocksOf, NoDup;
    var d := h.arenas[a].desc;
    assert ArenaOk(h, a);
    AllBlocksFacts(a, d);
    SubsetSmaller(FreeIn(h.free[d], a, d), BlocksOf(a, d));
  }

  lemma SubsetSmaller(a: set<nat>, b: set<nat>)
    requires a <= b
    ensures |a| <= |b|
  {
    assert |b - a| == |b| - |a|;
  }
}
