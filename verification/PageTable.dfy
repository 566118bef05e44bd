/** The four-level page table of threads/mmu.c: a radix tree of 512-entry pages, walked, extended and torn
    down in place. Addresses are physical; the kernel's constant offset (ptov, vtop) is left out. */
module PageTable {
  import opened Basics

  const PGSIZE: nat := 4096
  const ENTRIES: nat := 512
  const KERN_BASE: nat := 0x80_0400_0000
  const WORD32: nat := 0x1_0000_0000

  /** The address of one entry. */
  datatype Slot = Slot(table: nat, index: nat)

  /** A table's level (4 is the PML4, 1 a page table) and the entry that refers to it. */
  datatype Owner = Owner(level: nat, parent: nat, index: nat)

  type Mem = map<nat, seq<nat>>

  predicate Present(e: nat) { e % 2 == 1 }
  predicate Writable(e: nat) { e / 2 % 2 == 1 }
  predicate UserAccess(e: nat) { e / 4 % 2 == 1 }

  function Addr(e: nat): nat { e - e % PGSIZE }

  /** The bytes a table of level L covers; level 0 is one page. */
  function Span(l: nat): (r: nat)
    ensures r > 0
  {
    if l == 0 then 0x1000 else if l == 1 then 0x20_0000 else if l == 2 then 0x4000_0000
    else if l == 3 then 0x80_0000_0000 else 0x1_0000_0000_0000
  }

  /** PTX, PDX, PDPE and PML4 for levels 1 to 4. */
  function Index(l: nat, va: nat): (r: nat)
    requires l > 0
    ensures r < ENTRIES
  {
    va / Span(l - 1) % ENTRIES
  }

  // ---------- what the tree means ----------

  /** The leaf entry that VA leads to from table T of level L. */
  function Walk(m: Mem, t: nat, l: nat, va: nat): Option<Slot>
    decreases l
  {
    if l == 0 || t !in m || |m[t]| != ENTRIES then None
    else if l == 1 then Some(Slot(t, Index(1, va)))
    else
      var e := m[t][Index(l, va)];
      if Present(e) then Walk(m, Addr(e), l - 1, va) else None
  }

  /** The contents of VA's leaf entry; an address without one reads as 0. */
  function Entry(m: Mem, root: nat, va: nat): nat {
    match Walk(m, root, 4, va)
    case None => 0
    case Some(s) => if s.table in m && s.index < |m[s.table]| then m[s.table][s.index] else 0
  }

  ghost predicate SameMap(m: Mem, n: Mem, root: nat) {
    forall va :: Entry(m, root, va) == Entry(n, root, va)
  }

  // ---------- the invariant ----------

  ghost predicate TablesOk(m: Mem, o: map<nat, Owner>, root: nat) {
    && m.Keys == o.Keys && root in m && o[root].level == 4
    && (forall t :: t in m ==> |m[t]| == ENTRIES && t % PGSIZE == 0 && 1 <= o[t].level <= 4)
  }

  /** Entry I of the upper table T is empty, or leads to a table one level down that belongs to it, with all
      permissions: those of a page are decided by its leaf entry. */
  ghost predicate EntryOk(m: Mem, o: map<nat, Owner>, t: nat, i: nat)
    requires t in m && t in o && i < |m[t]| && o[t].level > 1
  {
    var e := m[t][i];
    if Present(e) then
      Addr(e) in m && Addr(e) in o && o[Addr(e)] == Owner(o[t].level - 1, t, i) && Writable(e) && UserAccess(e)
    else e == 0
  }

  /** Every table but the root hangs in its owner's entry. */
  ghost predicate Hangs(m: Mem, o: map<nat, Owner>, t: nat)
    requires t in o
  {
    var p, i := o[t].parent, o[t].index;
    p in m && i < |m[p]| && Present(m[p][i]) && Addr(m[p][i]) == t && p in o && o[p].level == o[t].level + 1
  }

  ghost predicate WellFormed(m: Mem, o: map<nat, Owner>, root: nat) {
    && TablesOk(m, o, root)
    && (forall t, i {:trigger m[t][i]} :: t in m && o[t].level > 1 && 0 <= i < ENTRIES ==> EntryOk(m, o, t, i))
    && (forall t :: t in m && t != root ==> Hangs(m, o, t))
  }

  lemma Step(m: Mem, o: map<nat, Owner>, root: nat, t: nat, l: nat, va: nat)
    requires WellFormed(m, o, root) && t in m && o[t].level == l && l > 1
    ensures |m[t]| == ENTRIES && EntryOk(m, o, t, Index(l, va))
  {
    var i := Index(l, va);
    assert m[t][i] == m[t][i];
  }

  /** A walk ends in an entry of a page table. */
  lemma {:induction false} WalkEnds(m: Mem, o: map<nat, Owner>, root: nat, t: nat, l: nat, va: nat)
    requires WellFormed(m, o, root) && t in m && o[t].level == l
    ensures Walk(m, t, l, va).Some? ==>
      var s := Walk(m, t, l, va).value; s.table in m && o[s.table].level == 1 && s.index == Index(1, va) < |m[s.table]|
    decreases l
  {
    hide WellFormed, Index;
    Tables(m, o, root);
    if l > 1 {
      Step(m, o, root, t, l, va);
      var e := m[t][Index(l, va)];
      if Present(e) { WalkEnds(m, o, root, Addr(e), l - 1, va); }
    }
  }

  lemma Tables(m: Mem, o: map<nat, Owner>, root: nat)
    requires WellFormed(m, o, root)
    ensures TablesOk(m, o, root)
  {
  }

  /** Two walks of tables of one level that end in the same entry started in the same table and used the
      same indices. */
  lemma {:induction false} WalkUnique(m: Mem, o: map<nat, Owner>, root: nat, t: nat, u: nat, l: nat, va: nat, vb: nat)
    requires WellFormed(m, o, root) && t in m && u in m && o[t].level == l && o[u].level == l
    requires Walk(m, t, l, va).Some? && Walk(m, t, l, va) == Walk(m, u, l, vb)
    ensures t == u && forall k :: 1 <= k <= l ==> Index(k, va) == Index(k, vb)
    decreases l
  {
    hide WellFormed, Index;
    Tables(m, o, root);
    if l > 1 {
      Step(m, o, root, t, l, va);
      Step(m, o, root, u, l, vb);
      WalkUnique(m, o, root, Addr(m[t][Index(l, va)]), Addr(m[u][Index(l, vb)]), l - 1, va, vb);
    }
  }

  lemma SameIndicesSamePage(va: nat, vb: nat)
    requires va < Span(4) && vb < Span(4) && forall k :: 1 <= k <= 4 ==> Index(k, va) == Index(k, vb)
    ensures va / PGSIZE == vb / PGSIZE
  {
    assert Index(1, va) == Index(1, vb) && Index(2, va) == Index(2, vb) && Index(3, va) == Index(3, vb);
    assert Index(4, va) == Index(4, vb);
    Digits(va);
    Digits(vb);
  }

  lemma Digits(va: nat)
    requires va < Span(4)
    ensures va / PGSIZE == Index(1, va) + 512 * (Index(2, va) + 512 * (Index(3, va) + 512 * Index(4, va)))
  {
    var a := va / 0x1000;
    var b := va / 0x20_0000;
    var c := va / 0x4000_0000;
    var d := va / 0x80_0000_0000;
    assert a == 512 * b + a % 512;
    assert b == 512 * c + b % 512;
    assert c == 512 * d + c % 512;
    assert d % 512 == d;
  }

  /** Distinct pages reach distinct entries. */
  lemma DistinctSlots(m: Mem, o: map<nat, Owner>, root: nat, va: nat, vb: nat)
    requires WellFormed(m, o, root) && va < Span(4) && vb < Span(4)
    requires Walk(m, root, 4, va).Some? && Walk(m, root, 4, va) == Walk(m, root, 4, vb)
    ensures va / PGSIZE == vb / PGSIZE
  {
    WalkUnique(m, o, root, root, root, 4, va, vb);
    SameIndicesSamePage(va, vb);
  }

  lemma {:induction false} SamePageWalk(m: Mem, t: nat, l: nat, va: nat, vb: nat)
    requires va / PGSIZE == vb / PGSIZE && l <= 4
    ensures Walk(m, t, l, va) == Walk(m, t, l, vb)
    decreases l
  {
    if l > 0 {
      SamePageIndex(l, va, vb);
      hide Index;
      if l > 1 && t in m && |m[t]| == ENTRIES && Present(m[t][Index(l, va)]) {
        SamePageWalk(m, Addr(m[t][Index(l, va)]), l - 1, va, vb);
      }
    }
  }

  lemma SamePageIndex(l: nat, va: nat, vb: nat)
    requires va / PGSIZE == vb / PGSIZE && 1 <= l <= 4
    ensures Index(l, va) == Index(l, vb)
  {
    assert va / 0x20_0000 == va / 0x1000 / 0x200 && vb / 0x20_0000 == vb / 0x1000 / 0x200;
    assert va / 0x4000_0000 == va / 0x1000 / 0x4_0000 && vb / 0x4000_0000 == vb / 0x1000 / 0x4_0000;
    assert va / 0x80_0000_0000 == va / 0x1000 / 0x800_0000 && vb / 0x80_0000_0000 == vb / 0x1000 / 0x800_0000;
  }

  // ---------- writing a leaf entry ----------

  function Put(page: seq<nat>, i: nat, e: nat): seq<nat>
    requires i < |page|
  {
    page[i := e]
  }

  function SetEntry(m: Mem, s: Slot, e: nat): Mem
    requires s.table in m && s.index < |m[s.table]|
  {
    m[s.table := Put(m[s.table], s.index, e)]
  }

  lemma EntryOf(m: Mem, o: map<nat, Owner>, root: nat, t: nat, i: nat)
    requires WellFormed(m, o, root) && t in m && o[t].level > 1 && i < ENTRIES
    ensures |m[t]| == ENTRIES && EntryOk(m, o, t, i)
  {
    assert m[t][i] == m[t][i];
  }

  lemma HangsOf(m: Mem, o: map<nat, Owner>, root: nat, t: nat)
    requires WellFormed(m, o, root) && t in m && t != root
    ensures Hangs(m, o, t)
  {
  }

  lemma SetLeafKeeps(m: Mem, o: map<nat, Owner>, root: nat, s: Slot, e: nat)
    requires WellFormed(m, o, root) && s.table in m && s.index < |m[s.table]| && o[s.table].level == 1
    ensures WellFormed(SetEntry(m, s, e), o, root)
  {
    hide Present, Addr;
    var n := SetEntry(m, s, e);
    assert TablesOk(n, o, root);
    forall t, i: nat | t in n && o[t].level > 1 && i < ENTRIES ensures i < |n[t]| && EntryOk(n, o, t, i) {
      EntryOf(m, o, root, t, i);
    }
    forall t | t in n && t != root ensures Hangs(n, o, t) {
      HangsOf(m, o, root, t);
    }
    WellFormedIf(n, o, root);
  }

  lemma WellFormedIf(m: Mem, o: map<nat, Owner>, root: nat)
    requires TablesOk(m, o, root)
    requires forall t, i: nat :: t in m && o[t].level > 1 && i < ENTRIES ==> EntryOk(m, o, t, i)
    requires forall t :: t in m && t != root ==> Hangs(m, o, t)
    ensures WellFormed(m, o, root)
  {
    hide EntryOk, Hangs;
  }

  /** A walk reads only upper tables, so a leaf entry does not change it. */
  lemma {:induction false} SetLeafWalk(m: Mem, o: map<nat, Owner>, root: nat, s: Slot, e: nat, t: nat, l: nat, va: nat)
    requires WellFormed(m, o, root) && s.table in m && s.index < |m[s.table]| && o[s.table].level == 1
    requires t in m && o[t].level == l
    ensures Walk(SetEntry(m, s, e), t, l, va) == Walk(m, t, l, va)
    decreases l
  {
    hide WellFormed, Index;
    Tables(m, o, root);
    if l > 1 {
      Step(m, o, root, t, l, va);
      if Present(m[t][Index(l, va)]) {
        SetLeafWalk(m, o, root, s, e, Addr(m[t][Index(l, va)]), l - 1, va);
      }
    }
  }

  /** Writing VA's entry changes what VA's page reads as, and no other page. */
  lemma SetLeafEntry(m: Mem, o: map<nat, Owner>, root: nat, va: nat, e: nat, vb: nat)
    requires WellFormed(m, o, root) && Walk(m, root, 4, va).Some? && va < Span(4) && vb < Span(4)
    ensures var s := Walk(m, root, 4, va).value; s.table in m && s.index < |m[s.table]|
    ensures Entry(SetEntry(m, Walk(m, root, 4, va).value, e), root, vb) ==
            if va / PGSIZE == vb / PGSIZE then e else Entry(m, root, vb)
  {
    hide WellFormed, Walk, Index, Span;
    Tables(m, o, root);
    WalkEnds(m, o, root, root, 4, va);
    var s := Walk(m, root, 4, va).value;
    SetLeafWalk(m, o, root, s, e, root, 4, vb);
    if va / PGSIZE == vb / PGSIZE {
      SamePageWalk(m, root, 4, va, vb);
    } else if Walk(m, root, 4, vb) == Some(s) {
      DistinctSlots(m, o, root, va, vb);
    }
  }

  // ---------- adding and removing a table ----------

  /** The tables a creating walk of VA from table T has to add. */
  function Missing(m: Mem, t: nat, l: nat, va: nat): nat
    decreases l
  {
    if l <= 1 || t !in m || |m[t]| != ENTRIES then 0
    else
      var e := m[t][Index(l, va)];
      if Present(e) then Missing(m, Addr(e), l - 1, va) else l - 1
  }

  /** A page of zeros. */
  function ZeroPage(): (r: seq<nat>)
    ensures |r| == ENTRIES && forall i :: 0 <= i < ENTRIES ==> r[i] == 0
  {
    seq(ENTRIES, i => 0)
  }

  /** The new page N is entered at index I of table T, with the user, write and present bits. */
  function Link(m: Mem, t: nat, i: nat, n: nat): Mem
    requires t in m && i < |m[t]|
  {
    m[t := Put(m[t], i, n + 7)][n := ZeroPage()]
  }

  lemma LinkKeeps(m: Mem, o: map<nat, Owner>, root: nat, t: nat, i: nat, n: nat)
    requires WellFormed(m, o, root) && t in m && i < |m[t]| && o[t].level > 1 && m[t][i] == 0
    requires n !in m && n % PGSIZE == 0
    ensures WellFormed(Link(m, t, i, n), o[n := Owner(o[t].level - 1, t, i)], root)
  {
    hide WellFormed, EntryOk, Hangs;
    Tables(m, o, root);
    var m', o' := Link(m, t, i, n), o[n := Owner(o[t].level - 1, t, i)];
    assert TablesOk(m', o', root);
    forall u, j: nat | u in m' && o'[u].level > 1 && j < ENTRIES ensures j < |m'[u]| && EntryOk(m', o', u, j) {
      LinkEntry(m, o, root, t, i, n, u, j);
    }
    forall u | u in m' && u != root ensures Hangs(m', o', u) {
      LinkHangs(m, o, root, t, i, n, u);
    }
    WellFormedIf(m', o', root);
  }

  lemma LinkedEntry(n: nat)
    ensures !Present(0) && (n % PGSIZE == 0 ==> Present(n + 7) && Addr(n + 7) == n)
    ensures n % PGSIZE == 0 ==> Writable(n + 7) && UserAccess(n + 7)
  {
    if n % PGSIZE == 0 {
      var k := n / PGSIZE;
      assert n == 4096 * k;
      Flags(k, 7);
    }
  }

  lemma LinkEntry(m: Mem, o: map<nat, Owner>, root: nat, t: nat, i: nat, n: nat, u: nat, j: nat)
    requires WellFormed(m, o, root) && t in m && i < |m[t]| && o[t].level > 1 && m[t][i] == 0
    requires n !in m && n % PGSIZE == 0
    requires u in Link(m, t, i, n) && o[n := Owner(o[t].level - 1, t, i)][u].level > 1 && j < ENTRIES
    ensures j < |Link(m, t, i, n)[u]| && EntryOk(Link(m, t, i, n), o[n := Owner(o[t].level - 1, t, i)], u, j)
  {
    hide WellFormed, Hangs, Present, Addr;
    LinkedEntry(n);
    Tables(m, o, root);
    if u != n {
      EntryOf(m, o, root, u, j);
    }
  }

  lemma LinkHangs(m: Mem, o: map<nat, Owner>, root: nat, t: nat, i: nat, n: nat, u: nat)
    requires WellFormed(m, o, root) && t in m && i < |m[t]| && o[t].level > 1 && m[t][i] == 0
    requires n !in m && n % PGSIZE == 0 && u in Link(m, t, i, n) && u != root
    ensures Hangs(Link(m, t, i, n), o[n := Owner(o[t].level - 1, t, i)], u)
  {
    hide WellFormed, EntryOk, Present, Addr;
    LinkedEntry(n);
    Tables(m, o, root);
    if u != n {
      HangsOf(m, o, root, u);
    }
  }

  /** The new table is empty, so every address reads as before. */
  lemma {:induction false} LinkWalk(m: Mem, o: map<nat, Owner>, root: nat, t: nat, i: nat, n: nat, u: nat, l: nat, va: nat)
    requires WellFormed(m, o, root) && t in m && i < |m[t]| && o[t].level > 1 && m[t][i] == 0
    requires n !in m && n % PGSIZE == 0 && u in m && o[u].level == l
    ensures Walk(m, u, l, va).Some? ==> Walk(Link(m, t, i, n), u, l, va) == Walk(m, u, l, va)
    ensures Walk(m, u, l, va) == None ==>
      Walk(Link(m, t, i, n), u, l, va) == None || Walk(Link(m, t, i, n), u, l, va) == Some(Slot(n, Index(1, va)))
    decreases l
  {
    hide WellFormed, Index;
    Tables(m, o, root);
    if l > 1 {
      Step(m, o, root, u, l, va);
      var j := Index(l, va);
      var m' := Link(m, t, i, n);
      if u == t && j == i {
        assert m'[u][j] == n + 7 && Addr(n + 7) == n;
        NewTableWalk(m', n, l - 1, va);
      } else if Present(m[u][j]) {
        assert m'[u][j] == m[u][j];
        LinkWalk(m, o, root, t, i, n, Addr(m[u][j]), l - 1, va);
      } else {
        assert m'[u][j] == m[u][j];
      }
    }
  }

  lemma NewTableWalk(m: Mem, n: nat, l: nat, va: nat)
    requires n in m && m[n] == ZeroPage() && l > 0
    ensures Walk(m, n, l, va) == if l == 1 then Some(Slot(n, Index(1, va))) else None
    ensures Missing(m, n, l, va) == l - 1
  {
  }

  lemma LinkSameMap(m: Mem, o: map<nat, Owner>, root: nat, t: nat, i: nat, n: nat)
    requires WellFormed(m, o, root) && t in m && i < |m[t]| && o[t].level > 1 && m[t][i] == 0
    requires n !in m && n % PGSIZE == 0
    ensures SameMap(m, Link(m, t, i, n), root)
  {
    hide WellFormed, Walk, Index;
    Tables(m, o, root);
    var m' := Link(m, t, i, n);
    forall va ensures Entry(m, root, va) == Entry(m', root, va) {
      LinkWalk(m, o, root, t, i, n, root, 4, va);
      WalkEnds(m, o, root, root, 4, va);
    }
  }

  // ---------- a new root ----------

  /** The tables of a new root PAGE that copies the root BASE: they are shared, BASE itself is not reached. */
  function Copied(m: Mem, base: nat, page: nat): Mem
    requires base in m
  {
    (m - {base})[page := m[base]]
  }

  ghost function CopiedOwner(o: map<nat, Owner>, base: nat, page: nat): map<nat, Owner> {
    map t | t in o.Keys - {base} + {page} ::
      if t == page || t !in o then Owner(4, 0, 0) else if o[t].parent == base then o[t].(parent := page) else o[t]
  }

  lemma CopyKeeps(m: Mem, o: map<nat, Owner>, base: nat, page: nat)
    requires WellFormed(m, o, base) && page !in m && page % PGSIZE == 0
    ensures WellFormed(Copied(m, base, page), CopiedOwner(o, base, page), page)
  {
    hide WellFormed, Hangs, EntryOk;
    Tables(m, o, base);
    var n, w := Copied(m, base, page), CopiedOwner(o, base, page);
    assert TablesOk(n, w, page);
    forall t, i: nat | t in n && w[t].level > 1 && i < ENTRIES ensures i < |n[t]| && EntryOk(n, w, t, i) {
      CopyEntry(m, o, base, page, t, i);
    }
    forall t | t in n && t != page ensures Hangs(n, w, t) {
      CopyHangs(m, o, base, page, t);
    }
    WellFormedIf(n, w, page);
  }

  lemma CopyEntry(m: Mem, o: map<nat, Owner>, base: nat, page: nat, t: nat, i: nat)
    requires WellFormed(m, o, base) && page !in m && page % PGSIZE == 0
    requires t in Copied(m, base, page) && CopiedOwner(o, base, page)[t].level > 1 && i < ENTRIES
    ensures i < |Copied(m, base, page)[t]| && EntryOk(Copied(m, base, page), CopiedOwner(o, base, page), t, i)
  {
    hide WellFormed, Hangs, Present, Addr;
    Tables(m, o, base);
    var u := if t == page then base else t;
    EntryOf(m, o, base, u, i);
  }

  lemma CopyHangs(m: Mem, o: map<nat, Owner>, base: nat, page: nat, t: nat)
    requires WellFormed(m, o, base) && page !in m && page % PGSIZE == 0 && t in m && t != base
    ensures Hangs(Copied(m, base, page), CopiedOwner(o, base, page), t)
  {
    hide WellFormed, EntryOk, Present, Addr;
    Tables(m, o, base);
    HangsOf(m, o, base, t);
  }

  lemma {:induction false} CopyWalk(m: Mem, o: map<nat, Owner>, base: nat, page: nat, t: nat, l: nat, va: nat)
    requires WellFormed(m, o, base) && page !in m && t in m && o[t].level == l
    ensures var u := if t == base then page else t;
            Walk(Copied(m, base, page), u, l, va) == Walk(m, t, l, va)
    decreases l
  {
    hide WellFormed, Index, Present, Addr;
    Tables(m, o, base);
    if l > 1 {
      Step(m, o, base, t, l, va);
      if Present(m[t][Index(l, va)]) {
        CopyWalk(m, o, base, page, Addr(m[t][Index(l, va)]), l - 1, va);
      }
    }
  }

  lemma CopyEntries(m: Mem, o: map<nat, Owner>, base: nat, page: nat, va: nat)
    requires WellFormed(m, o, base) && page !in m
    ensures base in m && Entry(Copied(m, base, page), page, va) == Entry(m, base, va)
  {
    hide WellFormed, Walk;
    Tables(m, o, base);
    CopyWalk(m, o, base, page, base, 4, va);
    WalkEnds(m, o, base, base, 4, va);
  }

  // ---------- leaf entries ----------

  /** What the processor makes of VA: the address in its frame, if the page is present. */
  function Translate(m: Mem, root: nat, va: nat): Option<nat> {
    var e := Entry(m, root, va);
    if Present(e) then Some(Addr(e) + va % PGSIZE) else None
  }

  /** N reads like M, but PAGE's page reads E. */
  ghost predicate Updated(m: Mem, n: Mem, root: nat, page: nat, e: nat) {
    forall va: nat :: va < Span(4) ==>
      Entry(n, root, va) == if va / PGSIZE == page / PGSIZE then e else Entry(m, root, va)
  }

  /** After pml4_set_page, pml4_get_page answers KPAGE at the same offset for UPAGE, and as before elsewhere. */
  lemma SetThenGet(m: Mem, n: Mem, root: nat, upage: nat, kpage: nat, rw: bool, va: nat)
    requires Updated(m, n, root, upage, LeafEntry(kpage, rw)) && kpage % PGSIZE == 0 && va < Span(4)
    ensures Translate(n, root, va) ==
            if va / PGSIZE == upage / PGSIZE then Some(kpage + va % PGSIZE) else Translate(m, root, va)
  {
    hide Entry, Present, Addr, LeafEntry;
    LeafEntryReads(kpage, rw);
  }

  /** After pml4_clear_page, pml4_get_page answers null for UPAGE, and as before elsewhere. */
  lemma ClearThenGet(m: Mem, n: Mem, root: nat, upage: nat, va: nat)
    requires Updated(m, n, root, upage, ClearPresent(Entry(m, root, upage))) && va < Span(4)
    ensures Translate(n, root, va) == if va / PGSIZE == upage / PGSIZE then None else Translate(m, root, va)
  {
    hide Entry, Present, Addr, ClearPresent;
    ClearPresentReads(Entry(m, root, upage));
  }

  function LeafEntry(frame: nat, rw: bool): nat { frame + 1 + (if rw then 2 else 0) + 4 }

  lemma LeafEntryReads(frame: nat, rw: bool)
    requires frame % PGSIZE == 0
    ensures var e := LeafEntry(frame, rw); Present(e) && Addr(e) == frame && (Writable(e) <==> rw) && UserAccess(e)
  {
    var k, f := frame / PGSIZE, if rw then 7 else 5;
    assert frame == 4096 * k && LeafEntry(frame, rw) == 4096 * k + f;
    Flags(k, f);
  }

  lemma Flags(k: nat, f: nat)
    requires f < 8
    ensures (4096 * k + f) % 4096 == f && (4096 * k + f) % 2 == f % 2 && (4096 * k + f) / 2 % 2 == f / 2 % 2
    ensures (4096 * k + f) / 4 % 2 == f / 4 % 2
  {
    assert (4096 * k + f) % 4096 == f by { var q := (4096 * k + f) / 4096; assert q == k; }
    var m := 1024 * k;
    assert 4096 * k + f == 2 * (2 * m) + f;
    Halves(m, f);
    Quarters(512 * k, f);
  }

  lemma Quarters(m: nat, f: nat)
    ensures (4 * (2 * m) + f) / 4 % 2 == f / 4 % 2
  {
    assert (4 * (2 * m) + f) / 4 == 2 * m + f / 4;
  }

  lemma Halves(m: nat, f: nat)
    ensures (2 * (2 * m) + f) % 2 == f % 2 && (2 * (2 * m) + f) / 2 % 2 == f / 2 % 2
  {
    assert (2 * (2 * m) + f) / 2 == 2 * m + f / 2;
  }

  /** e & ~PTE_P */
  function ClearPresent(e: nat): nat { e - e % 2 }

  lemma ClearPresentReads(e: nat)
    ensures !Present(ClearPresent(e)) && Addr(ClearPresent(e)) == Addr(e) && (Writable(ClearPresent(e)) <==> Writable(e))
    ensures UserAccess(ClearPresent(e)) <==> UserAccess(e)
    ensures ClearPresent(e) / 2 == e / 2
  {
    assert ClearPresent(e) / 4 == ClearPresent(e) / 2 / 2 && e / 4 == e / 2 / 2;
    assert ClearPresent(e) / 2 == e / 2;
    assert e % 2 == e % 4096 % 2;
    if e % 2 == 1 { assert (e - 1) % 4096 == e % 4096 - 1; }
  }

  /** e & ~(uint32_t) BIT for a bit below 2^12: the mask is widened with zeros, so the upper 32 bits go too. */
  function ClearStatus(e: nat, bit: nat): nat
    requires bit > 0
  {
    var w := e % WORD32;
    if w / bit % 2 == 1 then w - bit else w
  }

  /** e | BIT */
  function SetBit(e: nat, bit: nat): nat
    requires bit > 0
  {
    if e / bit % 2 == 1 then e else e + bit
  }

  /** Clearing the dirty or accessed bit leaves the frame address alone exactly when it fits in 32 bits. */
  lemma ClearStatusKeepsFrameIff(e: nat, bit: nat)
    requires bit == 0x20 || bit == 0x40
    ensures Addr(ClearStatus(e, bit)) == Addr(e) <==> e < WORD32
  {
    var w := e % WORD32;
    StatusBit(w, bit);
    assert w % 4096 == e % 4096;
    if e >= WORD32 { assert Addr(w) == w - e % 4096 < Addr(e); }
  }

  /** Setting touches its bit and nothing else. */
  lemma SetBitReads(e: nat, bit: nat)
    requires bit == 0x20 || bit == 0x40
    ensures var s := SetBit(e, bit); s / bit % 2 == 1 && s % bit == e % bit && s / bit / 2 == e / bit / 2
  {
    OneBit(e, bit);
  }

  /** Clearing does so, too, as long as the entry is below 2^32; the bit is clear in any case. */
  lemma ClearStatusReads(e: nat, bit: nat)
    requires bit == 0x20 || bit == 0x40
    ensures var c := ClearStatus(e, bit);
            c / bit % 2 == 0 && (e < WORD32 ==> c % bit == e % bit && c / bit / 2 == e / bit / 2)
  {
    LowWord(e);
    OneBit(e % WORD32, bit);
  }

  lemma LowWord(e: nat)
    ensures e < WORD32 ==> e % WORD32 == e
  {
  }

  lemma OneBit(e: nat, bit: nat)
    requires bit == 0x20 || bit == 0x40
    ensures e / bit % 2 == 0 ==> var s := e + bit; s / bit % 2 == 1 && s % bit == e % bit && s / bit / 2 == e / bit / 2
    ensures e / bit % 2 == 1 ==> e >= bit && var c := e - bit; c / bit % 2 == 0 && c % bit == e % bit && c / bit / 2 == e / bit / 2
  {
    AddBit(e, bit);
    Parity(e / bit);
    if e / bit % 2 == 1 {
      AtLeast(e, bit);
      AddBit(e - bit, bit);
      Parity((e - bit) / bit);
    }
  }

  lemma Parity(q: nat)
    ensures if q % 2 == 0 then (q + 1) % 2 == 1 && (q + 1) / 2 == q / 2 else (q + 1) % 2 == 0
  {
  }

  lemma AtLeast(e: nat, bit: nat)
    requires bit == 0x20 || bit == 0x40
    ensures e / bit >= 1 ==> e >= bit
  {
  }

  lemma AddBit(e: nat, bit: nat)
    requires bit > 0
    ensures (e + bit) / bit == e / bit + 1 && (e + bit) % bit == e % bit
  {
    var q, r := e / bit, e % bit;
    assert e + bit == (q + 1) * bit + r;
    Quotient(bit, q + 1, e + bit);
  }

  lemma StatusBit(w: nat, bit: nat)
    requires bit == 0x20 || bit == 0x40
    ensures w / bit % 2 == 1 ==> w >= bit && Addr(w - bit) == Addr(w)
  {
    var o, k := w % 4096, w / 4096;
    assert w == 4096 * k + o;
    BitInOffset(k, o, bit);
  }

  lemma BitInOffset(k: nat, o: nat, bit: nat)
    requires (bit == 0x20 || bit == 0x40) && o < 4096
    ensures (4096 * k + o) / bit % 2 == 1 ==> o >= bit && Addr(4096 * k + o - bit) == Addr(4096 * k + o)
  {
    if bit == 0x20 { Bit5(k, o); } else { Bit6(k, o); }
    Offset(k, o);
    if o >= bit { Offset(k, o - bit); }
  }

  lemma Bit5(k: nat, o: nat)
    ensures (4096 * k + o) / 0x20 % 2 == o / 0x20 % 2
  {
    var m := 64 * k;
    assert 4096 * k + o == 32 * (2 * m) + o;
    assert (32 * (2 * m) + o) / 32 == 2 * m + o / 32;
  }

  lemma Bit6(k: nat, o: nat)
    ensures (4096 * k + o) / 0x40 % 2 == o / 0x40 % 2
  {
    var m := 32 * k;
    assert 4096 * k + o == 64 * (2 * m) + o;
    assert (64 * (2 * m) + o) / 64 == 2 * m + o / 64;
  }

  lemma Offset(k: nat, o: nat)
    requires o < 4096
    ensures Addr(4096 * k + o) == 4096 * k
  {
  }

  // ---------- who may access a page ----------

  /** The processor lets a user access VA, for WRITE also to write: all entries on the way allow it. */
  ghost predicate Permits(m: Mem, t: nat, l: nat, va: nat, write: bool)
    decreases l
  {
    && l > 0 && t in m && |m[t]| == ENTRIES
    && var e := m[t][Index(l, va)];
       Present(e) && UserAccess(e) && (write ==> Writable(e)) && (l > 1 ==> Permits(m, Addr(e), l - 1, va, write))
  }

  /** The leaf entry alone decides. */
  lemma {:induction false} PermitsIff(m: Mem, o: map<nat, Owner>, root: nat, t: nat, l: nat, va: nat, write: bool)
    requires WellFormed(m, o, root) && t in m && o[t].level == l && Walk(m, t, l, va).Some?
    ensures var s := Walk(m, t, l, va).value; s.table in m && s.index < |m[s.table]|
    ensures var s := Walk(m, t, l, va).value; var e := m[s.table][s.index];
            Permits(m, t, l, va, write) <==> Present(e) && UserAccess(e) && (write ==> Writable(e))
    decreases l
  {
    hide WellFormed, Index, Present, Addr, UserAccess, Writable;
    Tables(m, o, root);
    if l > 1 {
      Step(m, o, root, t, l, va);
      PermitsIff(m, o, root, Addr(m[t][Index(l, va)]), l - 1, va, write);
    }
  }

  // ---------- visiting the leaves ----------

  /** One call of the callback: the leaf entry and the address it maps. */
  datatype Visit = Visit(pte: Slot, va: nat)

  /** V is a present leaf entry below table T, with the address whose indices lead to it. */
  ghost predicate Leaf(m: Mem, t: nat, l: nat, v: Visit) {
    && v.va % PGSIZE == 0 && Walk(m, t, l, v.va) == Some(v.pte)
    && v.pte.table in m && v.pte.index < |m[v.pte.table]| && Present(m[v.pte.table][v.pte.index])
  }

  /** VS are all the present leaves with addresses in [LO, HI), each once, by rising address. */
  ghost predicate Covers(m: Mem, t: nat, l: nat, lo: nat, hi: nat, vs: seq<Visit>) {
    && (forall k :: 0 <= k < |vs| ==> lo <= vs[k].va < hi && Leaf(m, t, l, vs[k]))
    && (forall j, k :: 0 <= j < k < |vs| ==> vs[j].va < vs[k].va)
    && (forall v: Visit :: lo <= v.va < hi && Leaf(m, t, l, v) ==> v in vs)
  }

  /** A visit is accepted while the callback returns true; the first refusal is the last visit. */
  ghost predicate Answers(f: Visit -> bool, ok: bool, vs: seq<Visit>) {
    && (ok ==> forall k :: 0 <= k < |vs| ==> f(vs[k]))
    && (!ok ==> |vs| > 0 && !f(vs[|vs| - 1]) && forall k :: 0 <= k < |vs| - 1 ==> f(vs[k]))
  }

  lemma AnswersJoin(f: Visit -> bool, ok: bool, vs: seq<Visit>, ws: seq<Visit>)
    requires Answers(f, true, vs) && Answers(f, ok, ws)
    ensures Answers(f, ok, vs + ws)
  {
  }

  lemma CoversJoin(m: Mem, t: nat, l: nat, lo: nat, mid: nat, hi: nat, vs: seq<Visit>, ws: seq<Visit>)
    requires Covers(m, t, l, lo, mid, vs) && Covers(m, t, l, mid, hi, ws) && lo <= mid <= hi
    ensures Covers(m, t, l, lo, hi, vs + ws)
  {
    hide Leaf;
    var xs := vs + ws;
    forall k | 0 <= k < |xs| ensures lo <= xs[k].va < hi && Leaf(m, t, l, xs[k]) {
      assert xs[k] == if k < |vs| then vs[k] else ws[k - |vs|];
    }
    forall v: Visit | lo <= v.va < hi && Leaf(m, t, l, v) ensures v in xs {
      assert v in vs || v in ws;
    }
  }

  /** The I-th part of what a table at address BASE covers. */
  function Part(l: nat, base: nat, i: nat): nat
    requires l > 0
  {
    base + i * Span(l - 1)
  }

  lemma PartIndex(l: nat, base: nat, i: nat, va: nat)
    requires 1 <= l <= 4 && base % Span(l) == 0 && i < ENTRIES && Part(l, base, i) <= va < Part(l, base, i + 1)
    ensures Index(l, va) == i && Part(l, base, i) % Span(l - 1) == 0
    ensures Part(l, base, i + 1) == Part(l, base, i) + Span(l - 1)
  {
    var q := base / Span(l);
    if l == 1 {
      PartDigit(0x1000, q, i, va);
    } else if l == 2 {
      PartDigit(0x20_0000, q, i, va);
    } else if l == 3 {
      PartDigit(0x4000_0000, q, i, va);
    } else {
      PartDigit(0x80_0000_0000, q, i, va);
    }
  }

  lemma PartDigit(n: nat, q: nat, i: nat, va: nat)
    requires n > 0 && i < 512 && (512 * q + i) * n <= va < (512 * q + i) * n + n
    ensures va / n % 512 == i && (512 * q + i) * n % n == 0
  {
    Quotient(n, 512 * q + i, va);
    Quotient(n, 512 * q + i, (512 * q + i) * n);
  }

  lemma Quotient(n: nat, k: nat, x: nat)
    requires n > 0 && k * n <= x < k * n + n
    ensures x / n == k && x % n == x - k * n
  {
    var q := x / n;
    assert x == q * n + x % n;
    assert q < k ==> (q + 1) * n <= k * n;
    assert q > k ==> (k + 1) * n <= q * n;
  }

  lemma CoversChild(m: Mem, t: nat, l: nat, base: nat, i: nat, lo: nat, hi: nat, vs: seq<Visit>)
    requires 2 <= l <= 4 && base % Span(l) == 0 && i < ENTRIES && t in m && |m[t]| == ENTRIES
    requires Part(l, base, i) <= lo <= hi <= Part(l, base, i + 1)
    requires if Present(m[t][i]) then Covers(m, Addr(m[t][i]), l - 1, lo, hi, vs) else vs == []
    ensures Covers(m, t, l, lo, hi, vs)
  {
    hide Present, Addr, Part, Span, Index;
    forall v: Visit | lo <= v.va < hi
      ensures Leaf(m, t, l, v) <==> Present(m[t][i]) && Leaf(m, Addr(m[t][i]), l - 1, v) {
      PartIndex(l, base, i, v.va);
    }
    hide Leaf;
  }

  lemma CoversLeaf(m: Mem, t: nat, base: nat, i: nat, hi: nat, vs: seq<Visit>)
    requires base % Span(1) == 0 && i < ENTRIES && t in m && |m[t]| == ENTRIES
    requires Part(1, base, i) <= hi <= Part(1, base, i + 1)
    requires if Present(m[t][i]) then hi > Part(1, base, i) && vs == [Visit(Slot(t, i), Part(1, base, i))] else vs == []
    ensures Covers(m, t, 1, Part(1, base, i), hi, vs)
  {
    hide Present, Index, Covers;
    var lo := Part(1, base, i);
    forall v: Visit | lo <= v.va < hi
      ensures Leaf(m, t, 1, v) <==> Present(m[t][i]) && v == Visit(Slot(t, i), lo) {
      PartIndex(1, base, i, v.va);
      PartIndex(1, base, i, lo);
    }
    CoversAtMostOne(m, t, 1, lo, hi, vs, Present(m[t][i]), Visit(Slot(t, i), lo));
  }

  lemma CoversAtMostOne(m: Mem, t: nat, l: nat, lo: nat, hi: nat, vs: seq<Visit>, one: bool, w: Visit)
    requires forall v: Visit :: lo <= v.va < hi ==> (Leaf(m, t, l, v) <==> one && v == w)
    requires if one then lo <= w.va < hi && vs == [w] else vs == []
    ensures Covers(m, t, l, lo, hi, vs)
  {
    hide Leaf;
  }

  // ---------- what is torn down ----------

  /** T hangs below entry 0 of the root: it maps user addresses. */
  ghost predicate User(o: map<nat, Owner>, t: nat)
    decreases if t in o && o[t].level <= 3 then 4 - o[t].level else 0
  {
    && t in o && o[t].level <= 3
    && if o[t].level == 3 then o[t].index == 0
       else o[t].parent in o && o[o[t].parent].level == o[t].level + 1 && User(o, o[t].parent)
  }

  /** No frame is mapped by two user pages, and none is a table. */
  ghost predicate FramesOk(m: Mem, o: map<nat, Owner>) {
    forall u, i, v, j {:trigger m[u][i], m[v][j]} ::
      u in m && v in m && UserLeaf(o, u) && UserLeaf(o, v) && 0 <= i < |m[u]| && 0 <= j < |m[v]|
      && Present(m[u][i]) && Present(m[v][j]) ==>
        Addr(m[u][i]) !in m && (Addr(m[u][i]) == Addr(m[v][j]) ==> u == v && i == j)
  }

  ghost predicate UserLeaf(o: map<nat, Owner>, t: nat) { t in o && o[t].level == 1 && User(o, t) }

  /** X is table T, or a table or frame that the tree below T refers to. */
  ghost predicate Under(m: Mem, t: nat, l: nat, x: nat)
    decreases l, 1
  {
    x == t || exists i :: 0 <= i < ENTRIES && Below(m, t, l, i, x)
  }

  /** The same through entry I of T. */
  ghost predicate Below(m: Mem, t: nat, l: nat, i: nat, x: nat)
    decreases l, 0
  {
    && l > 0 && t in m && i < |m[t]| && Present(m[t][i])
    && if l == 1 then x == Addr(m[t][i]) else Under(m, Addr(m[t][i]), l - 1, x)
  }

  lemma UserChild(m: Mem, o: map<nat, Owner>, root: nat, t: nat, i: nat)
    requires WellFormed(m, o, root) && t in m && 1 < o[t].level && i < ENTRIES && i < |m[t]| && Present(m[t][i])
    requires User(o, t) || (t == root && i == 0)
    ensures Addr(m[t][i]) in m && o[Addr(m[t][i])] == Owner(o[t].level - 1, t, i) && User(o, Addr(m[t][i]))
  {
    hide WellFormed;
    Tables(m, o, root);
    EntryOf(m, o, root, t, i);
  }

  lemma {:induction false} UnderLevel(m: Mem, o: map<nat, Owner>, root: nat, t: nat, l: nat, x: nat)
    requires WellFormed(m, o, root) && FramesOk(m, o) && t in m && o[t].level == l && User(o, t) && Under(m, t, l, x)
    ensures x in m ==> o[x].level <= l && (o[x].level == l ==> x == t)
    decreases l
  {
    hide WellFormed, User;
    Tables(m, o, root);
    if x != t {
      var i :| 0 <= i < ENTRIES && Below(m, t, l, i, x);
      if l == 1 {
        FrameOf(m, o, t, i);
      } else {
        UserChild(m, o, root, t, i);
        UnderLevel(m, o, root, Addr(m[t][i]), l - 1, x);
      }
    }
  }

  lemma FrameOf(m: Mem, o: map<nat, Owner>, t: nat, i: nat)
    requires FramesOk(m, o) && t in m && UserLeaf(o, t) && i < |m[t]| && Present(m[t][i])
    ensures Addr(m[t][i]) !in m
  {
    assert m[t][i] == m[t][i];
  }

  lemma FramesApart(m: Mem, o: map<nat, Owner>, t: nat, i: nat, u: nat, j: nat)
    requires FramesOk(m, o) && t in m && UserLeaf(o, t) && i < |m[t]| && Present(m[t][i])
    requires u in m && UserLeaf(o, u) && j < |m[u]| && Present(m[u][j]) && Addr(m[t][i]) == Addr(m[u][j])
    ensures t == u && i == j
  {
    hide UserLeaf, Addr, Present;
  }

  /** A table or frame hangs below one entry of one table only. */
  lemma {:induction false} BelowApart(m: Mem, o: map<nat, Owner>, root: nat, t: nat, i: nat, u: nat, j: nat, l: nat, x: nat)
    requires WellFormed(m, o, root) && FramesOk(m, o) && t in m && u in m && o[t].level == l && o[u].level == l
    requires User(o, t) && User(o, u) && Below(m, t, l, i, x) && Below(m, u, l, j, x) && i < ENTRIES && j < ENTRIES
    ensures t == u && i == j
    decreases l, 0
  {
    hide WellFormed, User, FramesOk;
    Tables(m, o, root);
    if l == 1 {
      FramesApart(m, o, t, i, u, j);
    } else {
      UserChild(m, o, root, t, i);
      UserChild(m, o, root, u, j);
      UnderApart(m, o, root, Addr(m[t][i]), Addr(m[u][j]), l - 1, x);
    }
  }

  lemma {:induction false} UnderApart(m: Mem, o: map<nat, Owner>, root: nat, t: nat, u: nat, l: nat, x: nat)
    requires WellFormed(m, o, root) && FramesOk(m, o) && t in m && u in m && o[t].level == l && o[u].level == l
    requires User(o, t) && User(o, u) && Under(m, t, l, x) && Under(m, u, l, x)
    ensures t == u
    decreases l, 1
  {
    hide WellFormed, User, FramesOk, Below, Present, Addr;
    UnderLevel(m, o, root, t, l, x);
    UnderLevel(m, o, root, u, l, x);
    if x != t && x != u {
      var i :| 0 <= i < ENTRIES && Below(m, t, l, i, x);
      var j :| 0 <= j < ENTRIES && Below(m, u, l, j, x);
      BelowApart(m, o, root, t, i, u, j, l, x);
    }
  }

  lemma BelowNotSelf(m: Mem, o: map<nat, Owner>, root: nat, t: nat, i: nat, x: nat)
    requires WellFormed(m, o, root) && FramesOk(m, o) && t in m && i < ENTRIES && o[t].level >= 1
    requires User(o, t) || (t == root && i == 0)
    requires Below(m, t, o[t].level, i, x)
    ensures x != t
  {
    hide WellFormed, User;
    Tables(m, o, root);
    if o[t].level == 1 {
      FrameOf(m, o, t, i);
    } else {
      UserChild(m, o, root, t, i);
      UnderLevel(m, o, root, Addr(m[t][i]), o[t].level - 1, x);
    }
  }

  function Items(s: seq<nat>): set<nat> { set x | x in s }

  /** FREED are the pages below the first N entries of T, each once. */
  ghost predicate Freed(m: Mem, t: nat, l: nat, n: nat, freed: seq<nat>) {
    NoDup(freed) && forall x :: x in freed <==> exists k :: 0 <= k < n && Below(m, t, l, k, x)
  }

  ghost predicate EntryOnly(m: Mem, t: nat, l: nat, i: nat, ws: seq<nat>) {
    NoDup(ws) && forall x :: x in ws <==> Below(m, t, l, i, x)
  }

  lemma FreedStep(m: Mem, o: map<nat, Owner>, root: nat, t: nat, n: nat, freed: seq<nat>, ws: seq<nat>)
    requires WellFormed(m, o, root) && FramesOk(m, o) && t in m && User(o, t) && n < ENTRIES
    requires Freed(m, t, o[t].level, n, freed) && EntryOnly(m, t, o[t].level, n, ws)
    ensures Freed(m, t, o[t].level, n + 1, freed + ws)
    ensures Items(freed + ws) == Items(freed) + Items(ws)
    ensures t !in freed + ws && forall x :: x in freed ==> x !in ws
  {
    hide WellFormed, FramesOk, User, Below, NoDup;
    Tables(m, o, root);
    var l := o[t].level;
    forall x | x in freed ensures x !in ws {
      var k :| 0 <= k < n && Below(m, t, l, k, x);
      if x in ws { BelowApart(m, o, root, t, k, t, n, l, x); }
    }
    forall x | x in freed + ws ensures x != t {
      var k :| 0 <= k <= n && Below(m, t, l, k, x);
      BelowNotSelf(m, o, root, t, k, x);
    }
    JoinApart(freed, ws);
  }

  lemma FreedAll(m: Mem, t: nat, l: nat, freed: seq<nat>)
    requires Freed(m, t, l, ENTRIES, freed) && t !in freed
    ensures NoDup(freed + [t]) && Items(freed + [t]) == Items(freed) + {t}
    ensures forall x :: x in freed + [t] <==> Under(m, t, l, x)
  {
    hide Below;
    JoinApart(freed, [t]);
  }

  // ---------- two roots ----------

  /** M and N are what two processes' roots A and B reach: they are entered in the same tables from slot 1 on,
      and what hangs below slot 0 of either is its own. */
  ghost predicate Sharing(m: Mem, o: map<nat, Owner>, a: nat, n: Mem, w: map<nat, Owner>, b: nat) {
    && WellFormed(m, o, a) && WellFormed(n, w, b) && a !in n && b !in m
    && (forall t :: t in m && t in n ==> m[t] == n[t] && o[t].level == w[t].level)
    && (forall t :: t in m && User(o, t) ==> t !in n)
    && (forall i :: 1 <= i < ENTRIES ==> i < |m[a]| && i < |n[b]| && m[a][i] == n[b][i])
  }

  /** Two roots that pml4_create has copied from one base without user pages are such roots. */
  lemma CreatedShare(m: Mem, o: map<nat, Owner>, base: nat, a: nat, b: nat)
    requires WellFormed(m, o, base) && a !in m && b !in m && a != b && a % PGSIZE == 0 && b % PGSIZE == 0
    requires base in m && |m[base]| > 0 && !Present(m[base][0])
    ensures Sharing(Copied(m, base, a), CopiedOwner(o, base, a), a, Copied(m, base, b), CopiedOwner(o, base, b), b)
  {
    hide WellFormed, Present, Addr;
    CopyKeeps(m, o, base, a);
    CopyKeeps(m, o, base, b);
    Tables(m, o, base);
    var n, w := Copied(m, base, a), CopiedOwner(o, base, a);
    forall t | t in n ensures !User(w, t) {
      if User(w, t) { UserSlot(n, w, a, t); }
    }
  }

  /** What hangs below slot 0 hangs in its entry. */
  lemma {:induction false} UserSlot(m: Mem, o: map<nat, Owner>, root: nat, t: nat)
    requires WellFormed(m, o, root) && t in m && User(o, t)
    ensures root in m && |m[root]| > 0 && Present(m[root][0])
    decreases 4 - o[t].level
  {
    hide WellFormed, Present, Addr;
    Tables(m, o, root);
    HangsOf(m, o, root, t);
    if o[t].level == 3 {
      LevelFour(m, o, root, o[t].parent);
    } else {
      UserSlot(m, o, root, o[t].parent);
    }
  }

  lemma LevelFour(m: Mem, o: map<nat, Owner>, root: nat, t: nat)
    requires WellFormed(m, o, root) && t in m && o[t].level == 4
    ensures t == root
  {
    assert t != root ==> Hangs(m, o, t);
  }

  /** A walk from a shared table sees the same through both roots. */
  lemma {:induction false} SharedWalk(m: Mem, o: map<nat, Owner>, a: nat, n: Mem, w: map<nat, Owner>, b: nat, t: nat, l: nat, va: nat)
    requires Sharing(m, o, a, n, w, b) && t in m && t in n && o[t].level == l
    ensures Walk(m, t, l, va) == Walk(n, t, l, va)
    ensures Walk(m, t, l, va).Some? ==> Walk(m, t, l, va).value.table in n
    decreases l
  {
    hide WellFormed, Index, Present, Addr, User;
    Tables(m, o, a);
    Tables(n, w, b);
    if l > 1 {
      Step(m, o, a, t, l, va);
      Step(n, w, b, t, l, va);
      var e := m[t][Index(l, va)];
      if Present(e) { SharedWalk(m, o, a, n, w, b, Addr(e), l - 1, va); }
    }
  }

  /** A walk below slot 0 ends below slot 0. */
  lemma {:induction false} UserWalk(m: Mem, o: map<nat, Owner>, root: nat, t: nat, l: nat, va: nat)
    requires WellFormed(m, o, root) && t in m && o[t].level == l && User(o, t)
    ensures Walk(m, t, l, va).Some? ==> Walk(m, t, l, va).value.table in m && User(o, Walk(m, t, l, va).value.table)
    decreases l
  {
    hide WellFormed, Index, Present, Addr;
    Tables(m, o, root);
    if l > 1 {
      Step(m, o, root, t, l, va);
      var e := m[t][Index(l, va)];
      if Present(e) { UserWalk(m, o, root, Addr(e), l - 1, va); }
    }
  }

  /** What root B reaches after the entry at S is set through root A. */
  function SetShared(n: Mem, s: Slot, e: nat): Mem {
    if s.table in n && s.index < |n[s.table]| then SetEntry(n, s, e) else n
  }

  lemma FirstIndex(va: nat)
    requires va < Span(4)
    ensures Index(4, va) == 0 <==> va < Span(3)
  {
  }

  /** Setting the entry of VA through one root leaves what every address reads as through the other root
      exactly if VA lies below slot 1 or already read that way. is_user_vaddr lets in the start of slot 1,
      which all roots share. */
  lemma OtherRootKeptIff(m: Mem, o: map<nat, Owner>, a: nat, n: Mem, w: map<nat, Owner>, b: nat, va: nat, e: nat)
    requires Sharing(m, o, a, n, w, b) && va < Span(4) && Walk(m, a, 4, va).Some?
    ensures var n' := SetShared(n, Walk(m, a, 4, va).value, e);
            (forall vb: nat :: vb < Span(4) ==> Entry(n', b, vb) == Entry(n, b, vb)) <==>
            va < Span(3) || Entry(n, b, va) == e
  {
    hide WellFormed, Walk, Entry, Present, Addr, Index, User, Span;
    var s := Walk(m, a, 4, va).value;
    Tables(m, o, a);
    WalkEnds(m, o, a, a, 4, va);
    FirstIndex(va);
    if Index(4, va) == 0 {
      PrivateWalk(m, o, a, va);
      assert SetShared(n, s, e) == n;
    } else {
      SharedRootWalk(m, o, a, n, w, b, va);
      forall vb: nat | vb < Span(4)
        ensures Entry(SetShared(n, s, e), b, vb) == if va / PGSIZE == vb / PGSIZE then e else Entry(n, b, vb)
        ensures va / PGSIZE == vb / PGSIZE ==> Entry(n, b, va) == Entry(n, b, vb) {
        SetLeafEntry(n, w, b, va, e, vb);
        if va / PGSIZE == vb / PGSIZE { SameEntry(n, b, va, vb); }
      }
      assert Entry(SetShared(n, s, e), b, va) == e;
    }
  }

  lemma SameEntry(n: Mem, b: nat, va: nat, vb: nat)
    requires va / PGSIZE == vb / PGSIZE
    ensures Entry(n, b, va) == Entry(n, b, vb)
  {
    hide Walk;
    SamePageWalk(n, b, 4, va, vb);
  }

  lemma PrivateWalk(m: Mem, o: map<nat, Owner>, a: nat, va: nat)
    requires WellFormed(m, o, a) && Walk(m, a, 4, va).Some? && Index(4, va) == 0
    ensures Walk(m, a, 4, va).value.table in m && User(o, Walk(m, a, 4, va).value.table)
  {
    hide WellFormed, Present, Addr, Index;
    Tables(m, o, a);
    Step(m, o, a, a, 4, va);
    var t := Addr(m[a][0]);
    UserWalk(m, o, a, t, 3, va);
  }

  lemma SharedRootWalk(m: Mem, o: map<nat, Owner>, a: nat, n: Mem, w: map<nat, Owner>, b: nat, va: nat)
    requires Sharing(m, o, a, n, w, b) && Walk(m, a, 4, va).Some? && Index(4, va) != 0
    ensures Walk(n, b, 4, va) == Walk(m, a, 4, va) && b in n
    ensures var s := Walk(m, a, 4, va).value; s.table in n && s.index < |n[s.table]|
  {
    hide WellFormed, Present, Addr, Index, User;
    Tables(m, o, a);
    Tables(n, w, b);
    Step(m, o, a, a, 4, va);
    Step(n, w, b, b, 4, va);
    var t := Addr(m[a][Index(4, va)]);
    SharedWalk(m, o, a, n, w, b, t, 3, va);
    WalkEnds(n, w, b, b, 4, va);
  }

  // ---------- the page table object ----------

  class PageTable {
    const root: nat
    var mem: Mem                // the table pages
    var pool: set<nat>          // the page allocator's free pages
    ghost var owner: map<nat, Owner>

    ghost predicate Valid()
      reads this
    {
      && WellFormed(mem, owner, root)
      && (forall p :: p in pool ==> p !in mem && p % PGSIZE == 0)
    }

    /** Takes PAGE from the allocator, clears it and enters it at index IDX of table T. */
    method Grow(t: nat, idx: nat, page: nat)
      requires Valid() && t in mem && idx < |mem[t]| && owner[t].level > 1 && mem[t][idx] == 0 && page in pool
      modifies this`mem, this`pool, this`owner
      ensures Valid() && SameMap(old(mem), mem, root)
      ensures mem == Link(old(mem), t, idx, page) && page !in old(mem) && page % PGSIZE == 0
      ensures pool == old(pool) - {page} && |pool| == |old(pool)| - 1
      ensures owner == old(owner)[page := Owner(old(owner[t].level) - 1, t, idx)]
    {
      hide WellFormed, SameMap;
      Tables(mem, owner, root);
      LinkKeeps(mem, owner, root, t, idx, page);
      LinkSameMap(mem, owner, root, t, idx, page);
      mem := Link(mem, t, idx, page);
      pool := pool - {page};
      owner := owner[page := Owner(owner[t].level - 1, t, idx)];
    }

    /** pml4_create, with PAGE from the page allocator: everything maps as under the kernel's root BASE. */
    constructor (m: Mem, ghost o: map<nat, Owner>, base: nat, page: nat, free: set<nat>)
      requires WellFormed(m, o, base) && page !in m && page % PGSIZE == 0 && base in m
      requires forall p :: p in free ==> p !in m && p != page && p % PGSIZE == 0
      ensures Valid() && root == page && pool == free
      ensures forall va :: Entry(mem, root, va) == Entry(m, base, va)
    {
      hide WellFormed, Entry;
      CopyKeeps(m, o, base, page);
      forall va ensures Entry(Copied(m, base, page), page, va) == Entry(m, base, va) {
        CopyEntries(m, o, base, page, va);
      }
      root, mem, pool, owner := page, Copied(m, base, page), free, CopiedOwner(o, base, page);
    }

    /** pml4e_walk, pdpe_walk and pgdir_walk with CREATE 0, from a table of any level above the leaves. */
    method FindEntry(level: nat, table: nat, va: nat) returns (r: Option<Slot>)
      requires Valid() && table in mem && owner[table].level == level && 2 <= level <= 4
      ensures r == Walk(mem, table, level, va)
      decreases level
    {
      hide WellFormed, Index, Present, Addr;
      Tables(mem, owner, root);
      Step(mem, owner, root, table, level, va);
      var idx := Index(level, va);
      if !Present(mem[table][idx]) {
        return None;
      }
      var next := Addr(mem[table][idx]);
      if level == 2 {
        r := Some(Slot(next, Index(1, va)));
      } else {
        r := FindEntry(level - 1, next, va);
      }
    }

    /** pgdir_walk with CREATE set: the last step of a walk, from the page directory PDP. */
    method PgdirWalk(pdp: nat, va: nat) returns (r: Option<Slot>)
      requires Valid() && pdp in mem && owner[pdp].level == 2
      modifies this`mem, this`pool, this`owner
      ensures Valid() && SameMap(old(mem), mem, root)
      ensures r == None ==> mem == old(mem) && pool == old(pool) && owner == old(owner)
      ensures r == Walk(mem, pdp, 2, va)
      ensures r == None <==> |old(pool)| < Missing(old(mem), pdp, 2, va)
      ensures r.Some? ==> |pool| == |old(pool)| - Missing(old(mem), pdp, 2, va)
      ensures forall t :: t in old(mem) ==> t in mem && owner[t] == old(owner[t]) && (owner[t].level >= 3 ==> mem[t] == old(mem[t]))
    {
      hide WellFormed, Index, SameMap, Entry, Present, Addr;
      Tables(mem, owner, root);
      Step(mem, owner, root, pdp, 2, va);
      var idx := Index(2, va);
      MissingStep(mem, pdp, 2, va);
      if !Present(mem[pdp][idx]) {
        if pool == {} {
          SameMapRefl(mem, root);
          return None;
        }
        var page :| page in pool;
        Grow(pdp, idx, page);
        LinkedEntry(page);
        NewTableWalk(mem, page, 1, va);
      } else {
        SameMapRefl(mem, root);
      }
      MissingStep(mem, pdp, 2, va);
      r := Some(Slot(Addr(mem[pdp][idx]), Index(1, va)));
    }

    /** Gives the page NEXT back and clears the entry that led to it. */
    method Ungrow(table: nat, idx: nat, next: nat, ghost m: Mem, ghost p: set<nat>, ghost o: map<nat, Owner>,
                  ghost w: Owner)
      requires table in m && idx < |m[table]| && m[table][idx] == 0 && next !in m && next !in o && next in p
      requires mem == Link(m, table, idx, next) && pool == p - {next}
      requires owner == o[next := w]
      modifies this`mem, this`pool, this`owner
      ensures mem == m && pool == p && owner == o
    {
      mem := (mem - {next})[table := Put(mem[table], idx, 0)];
      pool := pool + {next};
      owner := owner - {next};
      assert mem[table] == m[table];
    }

    /** pdpe_walk and pml4e_walk with CREATE set, the same code at levels 3 and 4: a step of the walk that
        gives its new table back when a deeper step finds no memory. */
    method UpperWalk(level: nat, table: nat, va: nat) returns (r: Option<Slot>)
      requires Valid() && table in mem && owner[table].level == level && 3 <= level <= 4
      modifies this`mem, this`pool, this`owner
      ensures Valid() && SameMap(old(mem), mem, root)
      ensures r == None ==> mem == old(mem) && pool == old(pool) && owner == old(owner)
      ensures r == Walk(mem, table, level, va)
      ensures r == None <==> |old(pool)| < Missing(old(mem), table, level, va)
      ensures r.Some? ==> |pool| == |old(pool)| - Missing(old(mem), table, level, va)
      ensures forall t :: t in old(mem) ==>
        t in mem && owner[t] == old(owner[t]) && (owner[t].level > level ==> mem[t] == old(mem[t]))
      decreases level
    {
      hide WellFormed, Index, SameMap, Entry, Present, Addr;
      Tables(mem, owner, root);
      Step(mem, owner, root, table, level, va);
      var idx := Index(level, va);
      var grown := false;
      SameMapRefl(mem, root);
      MissingStep(mem, table, level, va);
      if !Present(mem[table][idx]) {
        if pool == {} {
          return None;
        }
        var page :| page in pool;
        Grow(table, idx, page);
        LinkedEntry(page);
        NewTableWalk(mem, page, level - 1, va);
        grown := true;
      }
      var next := Addr(mem[table][idx]);
      ghost var m := mem;
      if level == 3 {
        r := PgdirWalk(next, va);
      } else {
        r := UpperWalk(level - 1, next, va);
      }
      SameMapTrans(old(mem), m, mem, root);
      MissingStep(mem, table, level, va);
      if r == None && grown {
        Ungrow(table, idx, next, old(mem), old(pool), old(owner), Owner(level - 1, table, idx));
      }
    }

    /** pml4_get_page. */
    method GetPage(uaddr: nat) returns (r: Option<nat>)
      requires Valid() && uaddr < KERN_BASE
      ensures r == Translate(mem, root, uaddr)
    {
      hide WellFormed, Present, Addr, Index, SameMap, Walk;
      Tables(mem, owner, root);
      WalkEnds(mem, owner, root, root, 4, uaddr);
      NothingPresent();
      var pte := FindEntry(4, root, uaddr);
      if pte.Some? && Present(mem[pte.value.table][pte.value.index]) {
        r := Some(Addr(mem[pte.value.table][pte.value.index]) + uaddr % PGSIZE);
      } else {
        r := None;
      }
    }

    /** pml4_set_page: afterwards UPAGE's page maps to KPAGE and every other page maps as before; without
        the memory for it, nothing changes. */
    method SetPage(upage: nat, kpage: nat, rw: bool) returns (ok: bool)
      requires Valid() && upage < KERN_BASE && upage % PGSIZE == 0 && kpage % PGSIZE == 0
      modifies this`mem, this`pool, this`owner
      ensures Valid()
      ensures !ok ==> mem == old(mem) && pool == old(pool) && owner == old(owner)
      ensures ok <==> |old(pool)| >= Missing(old(mem), root, 4, upage)
      ensures ok ==> Updated(old(mem), mem, root, upage, LeafEntry(kpage, rw))
      ensures ok ==> Permits(mem, root, 4, upage, false) && (Permits(mem, root, 4, upage, true) <==> rw)
    {
      hide WellFormed, Present, Addr, Index, SameMap, Walk, LeafEntry, Entry, Missing;
      Tables(mem, owner, root);
      var pte := UpperWalk(4, root, upage);
      ok := pte.Some?;
      ghost var m := mem;
      if ok {
        SetLeaf(upage, pte.value, LeafEntry(kpage, rw));
        SameThenUpdated(old(mem), m, mem, root, upage, LeafEntry(kpage, rw));
        SetPermits(upage, pte.value, kpage, rw);
      }
    }

    lemma SetPermits(va: nat, s: Slot, frame: nat, rw: bool)
      requires Valid() && Walk(mem, root, 4, va) == Some(s) && frame % PGSIZE == 0
      requires s.table in mem && s.index < |mem[s.table]| && mem[s.table][s.index] == LeafEntry(frame, rw)
      ensures Permits(mem, root, 4, va, false) && (Permits(mem, root, 4, va, true) <==> rw)
    {
      hide WellFormed, Walk, Permits, LeafEntry, Present, Addr, Writable, UserAccess;
      Tables(mem, owner, root);
      LeafEntryReads(frame, rw);
      PermitsIff(mem, owner, root, root, 4, va, false);
      PermitsIff(mem, owner, root, root, 4, va, true);
    }

    /** *pte = E, for the entry S of VA's page. */
    method SetLeaf(va: nat, s: Slot, e: nat)
      requires Valid() && va < Span(4) && Walk(mem, root, 4, va) == Some(s)
      modifies this`mem
      ensures Valid()
      ensures Updated(old(mem), mem, root, va, e)
      ensures Walk(mem, root, 4, va) == Some(s) && s.table in mem && s.index < |mem[s.table]| && mem[s.table][s.index] == e
    {
      hide WellFormed, Index, Walk, Entry;
      Tables(mem, owner, root);
      WalkEnds(mem, owner, root, root, 4, va);
      SetLeafKeeps(mem, owner, root, s, e);
      SetLeafWalk(mem, owner, root, s, e, root, 4, va);
      forall vb: nat | vb < Span(4)
        ensures Entry(SetEntry(mem, s, e), root, vb) == if vb / PGSIZE == va / PGSIZE then e else Entry(mem, root, vb) {
        SetLeafEntry(mem, owner, root, va, e, vb);
      }
      mem := mem[s.table := Put(mem[s.table], s.index, e)];
    }

    /** pml4_clear_page: UPAGE's page is no longer present; its other bits and every other page stay. */
    method ClearPage(upage: nat)
      requires Valid() && upage < KERN_BASE && upage % PGSIZE == 0
      modifies this`mem
      ensures Valid()
      ensures Updated(old(mem), mem, root, upage, ClearPresent(Entry(old(mem), root, upage)))
    {
      hide WellFormed, Present, Addr, Index, SameMap, Walk, ClearPresent;
      Tables(mem, owner, root);
      WalkEnds(mem, owner, root, root, 4, upage);
      var pte := FindEntry(4, root, upage);
      EntryOfPage(mem, root, upage);
      NothingPresent();
      assert pte.Some? ==> Entry(mem, root, upage) == mem[pte.value.table][pte.value.index];
      hide Entry;
      ClearPresentSame(Entry(mem, root, upage));
      if pte.Some? && Present(mem[pte.value.table][pte.value.index]) {
        SetLeaf(upage, pte.value, ClearPresent(mem[pte.value.table][pte.value.index]));
      }
    }

    /** pml4_set_dirty and pml4_set_accessed, for their bit of the entry. */
    method SetStatus(vpage: nat, bit: nat, on: bool)
      requires Valid() && vpage < Span(4) && (bit == 0x20 || bit == 0x40)
      modifies this`mem
      ensures Valid()
      ensures Walk(old(mem), root, 4, vpage) == None ==> mem == old(mem)
      ensures Walk(old(mem), root, 4, vpage).Some? ==> var e := Entry(old(mem), root, vpage);
        Updated(old(mem), mem, root, vpage, if on then SetBit(e, bit) else ClearStatus(e, bit))
    {
      hide WellFormed, Present, Addr, Index, SameMap, Walk, SetBit, ClearStatus;
      Tables(mem, owner, root);
      WalkEnds(mem, owner, root, root, 4, vpage);
      var pte := FindEntry(4, root, vpage);
      EntryOfPage(mem, root, vpage);
      hide Entry;
      if pte.Some? {
        var e := mem[pte.value.table][pte.value.index];
        SetLeaf(vpage, pte.value, if on then SetBit(e, bit) else ClearStatus(e, bit));
      }
    }

    /** pt_for_each, for the page table PT that maps addresses from BASE on. */
    method PtForEach(pt: nat, base: nat, f: Visit -> bool) returns (ok: bool, vs: seq<Visit>, ghost end: nat)
      requires Valid() && pt in mem && owner[pt].level == 1 && base % Span(1) == 0
      ensures Covers(mem, pt, 1, base, end, vs) && Answers(f, ok, vs)
      ensures base <= end <= base + Span(1) && (ok ==> end == base + Span(1))
    {
      hide WellFormed, Covers, Present;
      Tables(mem, owner, root);
      vs := [];
      CoversNothing(mem, pt, 1, base);
      var i := 0;
      Parts(1, base, 0);
      while i < ENTRIES
        invariant 0 <= i <= ENTRIES && Covers(mem, pt, 1, base, Part(1, base, i), vs) && Answers(f, true, vs)
        invariant base <= Part(1, base, i)
      {
        Parts(1, base, i);
        ghost var lo, hi := Part(1, base, i), Part(1, base, i + 1);
        if Present(mem[pt][i]) {
          var v := Visit(Slot(pt, i), base + i * PGSIZE);
          CoversLeaf(mem, pt, base, i, lo + 1, [v]);
          CoversLeaf(mem, pt, base, i, hi, [v]);
          CoversJoin(mem, pt, 1, base, lo, lo + 1, vs, [v]);
          CoversJoin(mem, pt, 1, base, lo, hi, vs, [v]);
          AnswersJoin(f, f(v), vs, [v]);
          vs := vs + [v];
          if !f(v) {
            return false, vs, lo + 1;
          }
        } else {
          CoversLeaf(mem, pt, base, i, hi, []);
          CoversJoin(mem, pt, 1, base, lo, hi, vs, []);
          assert vs + [] == vs;
        }
        i := i + 1;
      }
      return true, vs, base + Span(1);
    }

    /** pgdir_for_each, pdp_for_each and pml4_for_each, the same code at levels 2, 3 and 4. */
    method ForEach(table: nat, level: nat, base: nat, f: Visit -> bool) returns (ok: bool, vs: seq<Visit>, ghost end: nat)
      requires Valid() && table in mem && owner[table].level == level && 2 <= level <= 4 && base % Span(level) == 0
      ensures Covers(mem, table, level, base, end, vs) && Answers(f, ok, vs)
      ensures base <= end <= base + Span(level) && (ok ==> end == base + Span(level))
      decreases level
    {
      hide WellFormed, Covers, Present, Addr, Span, Answers;
      Tables(mem, owner, root);
      vs := [];
      CoversNothing(mem, table, level, base);
      AnswersNothing(f);
      var i := 0;
      Parts(level, base, 0);
      while i < ENTRIES
        invariant 0 <= i <= ENTRIES && Covers(mem, table, level, base, Part(level, base, i), vs) && Answers(f, true, vs)
        invariant base <= Part(level, base, i)
      {
        Parts(level, base, i);
        ghost var lo, hi := Part(level, base, i), Part(level, base, i + 1);
        if Present(mem[table][i]) {
          EntryOf(mem, owner, root, table, i);
          var good, ws;
          ghost var stop;
          if level == 2 {
            good, ws, stop := PtForEach(Addr(mem[table][i]), base + i * Span(level - 1), f);
          } else {
            good, ws, stop := ForEach(Addr(mem[table][i]), level - 1, base + i * Span(level - 1), f);
          }
          CoversChild(mem, table, level, base, i, lo, stop, ws);
          CoversJoin(mem, table, level, base, lo, stop, vs, ws);
          AnswersJoin(f, good, vs, ws);
          vs := vs + ws;
          if !good {
            Parts(level, base, i + 1);
            return false, vs, stop;
          }
        } else {
          CoversChild(mem, table, level, base, i, lo, hi, []);
          CoversJoin(mem, table, level, base, lo, hi, vs, []);
          assert vs + [] == vs;
        }
        i := i + 1;
      }
      Parts(level, base, 0);
      return true, vs, base + Span(level);
    }

    /** palloc_free_page; a page must not be freed twice. */
    method FreePage(page: nat)
      requires page !in pool
      modifies this`mem, this`pool
      ensures mem == old(mem) - {page} && pool == old(pool) + {page}
    {
      mem := mem - {page};
      pool := pool + {page};
    }

    /** The tree below TABLE is as in the memory M, and none of it is free. */
    ghost predicate Intact(m: Mem, table: nat, level: nat)
      reads this`mem, this`pool
    {
      forall x :: Under(m, table, level, x) ==> x !in pool && (x in m ==> x in mem && mem[x] == m[x])
    }

    ghost predicate Doomed(m: Mem, table: nat, level: nat)
      reads this`owner
    {
      WellFormed(m, owner, root) && FramesOk(m, owner) && table in m && owner[table].level == level && User(owner, table)
    }

    /** pt_destroy: frees the frames of a page table and the table itself. */
    method PtDestroy(pt: nat, ghost m: Mem) returns (freed: seq<nat>)
      requires Doomed(m, pt, 1) && Intact(m, pt, 1)
      modifies this`mem, this`pool
      ensures NoDup(freed) && forall x :: x in freed <==> Under(m, pt, 1, x)
      ensures mem == old(mem) - Items(freed) && pool == old(pool) + Items(freed)
    {
      hide WellFormed, FramesOk, User, NoDup, Addr, Present;
      Tables(m, owner, root);
      freed := [];
      var i := 0;
      NoneFreed(m, pt, 1);
      while i < ENTRIES
        invariant 0 <= i <= ENTRIES && Freed(m, pt, 1, i, freed) && pt !in freed
        invariant mem == old(mem) - Items(freed) && pool == old(pool) + Items(freed)
      {
        assert Under(m, pt, 1, pt);
        if Present(mem[pt][i]) {
          var page := Addr(mem[pt][i]);
          OneFrame(m, pt, i);
          FreedStep(m, owner, root, pt, i, freed, [page]);
          assert Under(m, pt, 1, page);
          FreePage(page);
          freed := freed + [page];
        } else {
          NoFrame(m, pt, 1, i);
          FreedStep(m, owner, root, pt, i, freed, []);
          assert freed + [] == freed;
        }
        i := i + 1;
      }
      FreedAll(m, pt, 1, freed);
      assert Under(m, pt, 1, pt);
      FreePage(pt);
      freed := freed + [pt];
    }

    /** pgdir_destroy and pdpe_destroy, the same code at levels 2 and 3. */
    method Destroy(table: nat, level: nat, ghost m: Mem) returns (freed: seq<nat>)
      requires 2 <= level <= 3 && Doomed(m, table, level) && Intact(m, table, level)
      modifies this`mem, this`pool
      ensures NoDup(freed) && forall x :: x in freed <==> Under(m, table, level, x)
      ensures mem == old(mem) - Items(freed) && pool == old(pool) + Items(freed)
      decreases level
    {
      hide WellFormed, FramesOk, User, NoDup, Addr, Present, Below;
      Tables(m, owner, root);
      freed := [];
      var i := 0;
      NoneFreed(m, table, level);
      while i < ENTRIES
        invariant 0 <= i <= ENTRIES && Freed(m, table, level, i, freed) && table !in freed
        invariant mem == old(mem) - Items(freed) && pool == old(pool) + Items(freed)
      {
        assert Under(m, table, level, table);
        if Present(mem[table][i]) {
          var child := Addr(mem[table][i]);
          UserChild(m, owner, root, table, i);
          OneChild(m, table, level, i);
          NotYetFreed(m, owner, root, table, i, freed);
          var ws;
          if level == 2 {
            ws := PtDestroy(child, m);
          } else {
            ws := Destroy(child, level - 1, m);
          }
          FreedStep(m, owner, root, table, i, freed, ws);
          freed := freed + ws;
        } else {
          NoFrame(m, table, level, i);
          FreedStep(m, owner, root, table, i, freed, []);
          assert freed + [] == freed;
        }
        i := i + 1;
      }
      FreedAll(m, table, level, freed);
      assert Under(m, table, level, table);
      FreePage(table);
      freed := freed + [table];
    }

    /** pml4_destroy: frees the root, and every table and frame below its entry 0, once; nothing else. */
    method Pml4Destroy() returns (freed: seq<nat>)
      requires Valid() && FramesOk(mem, owner)
      requires forall x :: Below(mem, root, 4, 0, x) ==> x !in pool
      modifies this`mem, this`pool
      ensures NoDup(freed) && forall x :: x in freed <==> x == root || Below(old(mem), root, 4, 0, x)
      ensures mem == old(mem) - Items(freed) && pool == old(pool) + Items(freed)
    {
      hide WellFormed, FramesOk, User, NoDup, Addr, Present, Below;
      ghost var m := mem;
      Tables(m, owner, root);
      NoneFreed(m, root, 4);
      freed := [];
      if Present(mem[root][0]) {
        UserChild(m, owner, root, root, 0);
        OneChild(m, root, 4, 0);
        freed := Destroy(Addr(mem[root][0]), 3, m);
        if root in freed { BelowNotSelf(m, owner, root, root, 0, root); }
      } else {
        NoFrame(m, root, 4, 0);
      }
      JoinApart(freed, [root]);
      FreePage(root);
      freed := freed + [root];
    }
  }

  /** pml4_create, with the free pages POOL: null exactly when there is none. */
  method Pml4Create(m: Mem, ghost o: map<nat, Owner>, base: nat, pool: set<nat>) returns (t: PageTable?)
    requires WellFormed(m, o, base) && base in m
    requires forall p :: p in pool ==> p !in m && p % PGSIZE == 0
    ensures t == null <==> pool == {}
    ensures t != null ==> t.Valid() && t.root in pool && t.pool == pool - {t.root}
    ensures t != null ==> forall va :: Entry(t.mem, t.root, va) == Entry(m, base, va)
  {
    hide WellFormed, Entry;
    if pool == {} {
      return null;
    }
    var page :| page in pool;
    t := new PageTable(m, o, base, page, pool - {page});
  }

  lemma SameThenUpdated(l: Mem, m: Mem, n: Mem, root: nat, page: nat, e: nat)
    requires SameMap(l, m, root) && Updated(m, n, root, page, e)
    ensures Updated(l, n, root, page, e)
  {
    hide Entry;
    forall va: nat | va < Span(4)
      ensures Entry(n, root, va) == if va / PGSIZE == page / PGSIZE then e else Entry(l, root, va) {
      assert Entry(l, root, va) == Entry(m, root, va);
    }
  }

  lemma EntryOfPage(m: Mem, root: nat, va: nat)
    ensures forall vb: nat :: vb / PGSIZE == va / PGSIZE ==> Entry(m, root, vb) == Entry(m, root, va)
    ensures Walk(m, root, 4, va) == None ==> Entry(m, root, va) == 0
  {
    hide Walk;
    forall vb: nat | vb / PGSIZE == va / PGSIZE ensures Entry(m, root, vb) == Entry(m, root, va) {
      SamePageWalk(m, root, 4, va, vb);
    }
  }

  lemma ClearPresentSame(e: nat)
    ensures !Present(e) ==> ClearPresent(e) == e
  {
  }

  lemma CoversNothing(m: Mem, t: nat, l: nat, lo: nat)
    ensures Covers(m, t, l, lo, lo, [])
  {
    hide Leaf;
  }

  lemma AnswersNothing(f: Visit -> bool)
    ensures Answers(f, true, [])
  {
  }

  lemma Parts(l: nat, base: nat, i: nat)
    requires 1 <= l <= 4 && base % Span(l) == 0
    ensures Part(l, base, 0) == base && Part(l, base, ENTRIES) == base + Span(l)
    ensures Part(l, base, i + 1) == Part(l, base, i) + Span(l - 1)
    ensures i < ENTRIES ==> Part(l, base, i) % Span(l - 1) == 0
    ensures i <= ENTRIES ==> Part(l, base, i) <= base + Span(l)
  {
    if i < ENTRIES { PartIndex(l, base, i, Part(l, base, i)); }
    if l == 1 {} else if l == 2 {} else if l == 3 {} else {}
  }

  lemma NoneFreed(m: Mem, t: nat, l: nat)
    ensures Freed(m, t, l, 0, [])
  {
    hide Below;
  }

  lemma OneFrame(m: Mem, t: nat, i: nat)
    requires t in m && i < |m[t]| == ENTRIES && Present(m[t][i])
    ensures EntryOnly(m, t, 1, i, [Addr(m[t][i])]) && Under(m, t, 1, Addr(m[t][i]))
  {
    hide Present, Addr;
    assert Below(m, t, 1, i, Addr(m[t][i]));
  }

  lemma OneChild(m: Mem, t: nat, l: nat, i: nat)
    requires t in m && i < |m[t]| == ENTRIES && Present(m[t][i]) && l > 1
    ensures forall x :: Below(m, t, l, i, x) <==> Under(m, Addr(m[t][i]), l - 1, x)
    ensures forall x :: Below(m, t, l, i, x) ==> Under(m, t, l, x)
  {
    hide Present, Addr;
  }

  lemma NotYetFreed(m: Mem, o: map<nat, Owner>, root: nat, t: nat, n: nat, freed: seq<nat>)
    requires WellFormed(m, o, root) && FramesOk(m, o) && t in m && User(o, t) && n < ENTRIES
    requires Freed(m, t, o[t].level, n, freed)
    ensures forall x :: Below(m, t, o[t].level, n, x) ==> x !in freed
  {
    hide WellFormed, FramesOk, User, Below, NoDup;
    Tables(m, o, root);
    var l := o[t].level;
    forall x | Below(m, t, l, n, x) ensures x !in freed {
      if x in freed {
        var k :| 0 <= k < n && Below(m, t, l, k, x);
        BelowApart(m, o, root, t, k, t, n, l, x);
      }
    }
  }

  lemma NoFrame(m: Mem, t: nat, l: nat, i: nat)
    requires t in m && i < |m[t]| && !Present(m[t][i])
    ensures EntryOnly(m, t, l, i, [])
  {
    hide Present, Addr;
  }

  lemma NothingPresent()
    ensures !Present(0)
  {
  }

  lemma MissingStep(m: Mem, t: nat, l: nat, va: nat)
    requires l > 1 && t in m && |m[t]| == ENTRIES
    ensures var e := m[t][Index(l, va)]; Missing(m, t, l, va) == if Present(e) then Missing(m, Addr(e), l - 1, va) else l - 1
    ensures var e := m[t][Index(l, va)]; Walk(m, t, l, va) == if Present(e) then Walk(m, Addr(e), l - 1, va) else None
  {
  }

  lemma SameMapTrans(l: Mem, m: Mem, n: Mem, root: nat)
    requires SameMap(l, m, root) && SameMap(m, n, root)
    ensures SameMap(l, n, root)
  {
    hide Entry;
    forall va ensures Entry(l, root, va) == Entry(n, root, va) {
      assert Entry(l, root, va) == Entry(m, root, va) == Entry(n, root, va);
    }
  }

  lemma SameMapRefl(m: Mem, root: nat)
    ensures SameMap(m, m, root)
  {
  }
}
