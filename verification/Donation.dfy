/** Locks with priority donation (threads/synch.c, threads/thread.c), with the MLFQS scheduler off. Here
    each call runs without interruption up to where it returns or waits; LockSteps has the steps between
    which it can be interrupted, and shows that these calls are what they add up to. */
module Donation {
  import opened Basics
  import opened ListSpec

  type Tid = nat
  type Lid = nat

  datatype Donation = Donation(priority: int, donor: Tid, lock: Lid)

  /** Where a thread stands: not waiting, blocked in a lock's waiter list, or taken off the list by
      sema_up but not yet rechecking the semaphore. */
  datatype Pc = Running | Blocked(lock: Lid) | Woken(lock: Lid)

  datatype Thread = Thread(priority: int, original: int, donations: seq<Donation>, pending: Option<Lid>, pc: Pc)

  datatype Lock = Lock(holder: Option<Tid>, value: nat, waiters: seq<Tid>)

  datatype State = State(threads: map<Tid, Thread>, locks: map<Lid, Lock>)

  // ---------- orders on the lists ----------

  /** compare_priority_for_donate. */
  function DonationLess(): (Donation, Donation) -> bool {
    (a: Donation, b: Donation) => a.priority > b.priority
  }

  /** compare_priority, under the priorities the threads have now. */
  function ThreadLess(threads: map<Tid, Thread>): (Tid, Tid) -> bool {
    (a: Tid, b: Tid) => a in threads && b in threads && threads[a].priority > threads[b].priority
  }

  lemma DonationLessWeak(dom: set<Donation>)
    ensures StrictWeak(DonationLess(), dom)
  {
  }

  lemma ThreadLessWeak(threads: map<Tid, Thread>)
    ensures StrictWeak(ThreadLess(threads), threads.Keys)
  {
  }

  /** list_sort of a waiter list. */
  function SortWaiters(threads: map<Tid, Thread>, w: seq<Tid>): (r: seq<Tid>)
    requires Within(w, threads.Keys)
    ensures multiset(r) == multiset(w) && Within(r, threads.Keys)
    ensures Sorted(ThreadLess(threads), r)
  {
    ThreadLessWeak(threads);
    SortCorrect(ThreadLess(threads), w, threads.Keys);
    var r := Sort(ThreadLess(threads), w, threads.Keys);
    assert forall e :: e in r ==> e in multiset(w);
    r
  }

  // ---------- the invariant ----------

  /** Donations are in descending order. */
  ghost predicate Descending(ds: seq<Donation>) {
    forall i, j :: 0 <= i < j < |ds| ==> ds[i].priority >= ds[j].priority
  }

  ghost predicate HoldsAll(locks: map<Lid, Lock>, t: Tid, ds: seq<Donation>) {
    forall i :: 0 <= i < |ds| ==> ds[i].lock in locks && locks[ds[i].lock].holder == Some(t)
  }

  function Effective(original: int, ds: seq<Donation>): int {
    if |ds| > 0 && ds[0].priority > original then ds[0].priority else original
  }

  /** Thread T's donations are sorted, name locks T holds, and its priority is the larger of its own
      and the highest donated one. */
  ghost predicate DonationsOk(s: State, t: Tid)
    requires t in s.threads
  {
    var th := s.threads[t];
    && Descending(th.donations)
    && HoldsAll(s.locks, t, th.donations)
    && th.priority == Effective(th.original, th.donations)
  }

  /** Lock L: its semaphore is 0 exactly while somebody holds it, its waiter list is exactly the
      threads blocked on it, and a free lock with waiters has a woken thread on its way. */
  ghost predicate LockOk(s: State, l: Lid)
    requires l in s.locks
  {
    var k := s.locks[l];
    && (k.holder.Some? <==> k.value == 0) && k.value <= 1
    && (k.holder.Some? ==> k.holder.value in s.threads)
    && NoDup(k.waiters)
    && (forall t :: t in k.waiters ==> t in s.threads && s.threads[t].pc == Blocked(l))
    && (k.value > 0 && |k.waiters| > 0 ==> SomeoneWoken(s, l))
  }

  ghost predicate SomeoneWoken(s: State, l: Lid) {
    exists t :: t in s.threads && s.threads[t].pc == Woken(l)
  }

  ghost predicate WaitersComplete(s: State) {
    forall t :: t in s.threads && s.threads[t].pc.Blocked? ==>
      s.threads[t].pc.lock in s.locks && t in s.locks[s.threads[t].pc.lock].waiters
  }

  /** pending_lock is set exactly while a thread is inside lock_acquire's wait. */
  ghost predicate PendingOk(s: State) {
    forall t :: t in s.threads ==> PendingOkAt(s.locks.Keys, s.threads[t])
  }

  ghost predicate PendingOkAt(locks: set<Lid>, th: Thread) {
    && (th.pending.Some? ==> th.pending.value in locks)
    && (th.pc == Running <==> th.pending == None)
    && (th.pc.Blocked? ==> th.pending == Some(th.pc.lock))
    && (th.pc.Woken? ==> th.pending == Some(th.pc.lock))
  }

  ghost predicate AllDonationsOk(s: State) {
    forall t :: t in s.threads ==> DonationsOk(s, t)
  }

  ghost predicate AllLocksOk(s: State) {
    forall l :: l in s.locks ==> LockOk(s, l)
  }

  ghost predicate Inv(s: State) {
    && AllDonationsOk(s)
    && AllLocksOk(s)
    && WaitersComplete(s)
    && PendingOk(s)
  }

  /** In such a state a thread that holds no lock runs at its original priority. */
  lemma NoLockNoBoost(s: State, t: Tid)
    requires Inv(s) && t in s.threads
    requires forall l :: l in s.locks ==> s.locks[l].holder != Some(t)
    ensures s.threads[t].donations == [] && s.threads[t].priority == s.threads[t].original
  {
    assert DonationsOk(s, t);
    if s.threads[t].donations != [] {
      DonationMeansLock(s.locks, t, s.threads[t].donations);
    }
  }

  /** A thread's priority is the highest of its own and all those donated to it. */
  lemma PriorityIsMax(s: State, t: Tid)
    requires Inv(s) && t in s.threads
    ensures var th := s.threads[t];
            && th.priority >= th.original && (forall d :: d in th.donations ==> th.priority >= d.priority)
            && (th.priority == th.original || exists d :: d in th.donations && d.priority == th.priority)
  {
    assert DonationsOk(s, t);
    var th := s.threads[t];
    if th.donations != [] { assert th.donations[0] in th.donations; }
  }

  lemma DonationMeansLock(locks: map<Lid, Lock>, t: Tid, ds: seq<Donation>)
    requires HoldsAll(locks, t, ds) && ds != []
    ensures exists l :: l in locks && locks[l].holder == Some(t)
  {
    assert locks[ds[0].lock].holder == Some(t);
  }

  // ---------- the donation walk ----------

  lemma InvClosed(s: State)
    requires AllLocksOk(s) && PendingOk(s)
    ensures Closed(s)
  {
    forall l | l in s.locks
      ensures s.locks[l].holder.Some? ==> s.locks[l].holder.value in s.threads
      ensures Within(s.locks[l].waiters, s.threads.Keys)
    {
      assert LockOk(s, l);
    }
  }

  /** RANK witnesses that the waits-for graph is acyclic: a thread outranks the holder of the lock it
      waits for. */
  ghost predicate Ranked(s: State, rank: map<Tid, nat>) {
    && (forall t :: t in s.threads ==> t in rank)
    && (forall t :: t in s.threads ==> Below(s, rank, s.threads[t].pending, rank[t]))
  }

  /** The holder of the lock waited for, if any, ranks below R. */
  ghost predicate Below(s: State, rank: map<Tid, nat>, pending: Option<Lid>, r: nat) {
    pending.Some? && pending.value in s.locks && s.locks[pending.value].holder.Some? ==>
      var h := s.locks[pending.value].holder.value; h in rank && rank[h] < r
  }

  /** References lead somewhere. */
  ghost predicate Closed(s: State) {
    && (forall t :: t in s.threads && s.threads[t].pending.Some? ==> s.threads[t].pending.value in s.locks)
    && (forall l :: l in s.locks && s.locks[l].holder.Some? ==> s.locks[l].holder.value in s.threads)
    && (forall l :: l in s.locks ==> Within(s.locks[l].waiters, s.threads.Keys))
  }

  /** Holder H receives priority P from DONOR through lock L: raise it, record the donation in order,
      and re-sort the waiters H itself stands among. */
  function GiveDonation(s: State, h: Tid, p: int, donor: Tid, l: Lid): State
    requires Closed(s) && h in s.threads
  {
    var th := s.threads[h];
    var raised := if th.priority < p then p else th.priority;
    var ds := Inserted(DonationLess(), th.donations, Donation(p, donor, l));
    var threads := s.threads[h := th.(priority := raised, donations := ds)];
    match th.pending
    case None => State(threads, s.locks)
    case Some(l2) =>
      var k := s.locks[l2];
      State(threads, s.locks[l2 := k.(waiters := SortWaiters(threads, k.waiters))])
  }

  /** Two states that differ only in priorities, donations and the order of waiters. */
  ghost predicate SameShape(s: State, s': State) {
    && s'.threads.Keys == s.threads.Keys && s'.locks.Keys == s.locks.Keys
    && (forall t :: t in s.threads ==>
        && s'.threads[t].pending == s.threads[t].pending && s'.threads[t].pc == s.threads[t].pc
        && s'.threads[t].original == s.threads[t].original)
    && (forall l :: l in s.locks ==>
        && s'.locks[l].holder == s.locks[l].holder && s'.locks[l].value == s.locks[l].value
        && multiset(s'.locks[l].waiters) == multiset(s.locks[l].waiters))
  }

  lemma GiveDonationShape(s: State, h: Tid, p: int, donor: Tid, l: Lid)
    requires Closed(s) && h in s.threads
    ensures SameShape(s, GiveDonation(s, h, p, donor, l)) && Closed(GiveDonation(s, h, p, donor, l))
  {
    hide GiveDonation, SameShape, Closed;
    GiveDonationSame(s, h, p, donor, l);
    SameShapeClosed(s, GiveDonation(s, h, p, donor, l));
  }

  lemma GiveDonationSame(s: State, h: Tid, p: int, donor: Tid, l: Lid)
    requires Closed(s) && h in s.threads
    ensures SameShape(s, GiveDonation(s, h, p, donor, l))
  {
    hide Inserted, SortWaiters, Within;
    if s.threads[h].pending.Some? { assert s.threads[h].pending.value in s.locks; }
  }

  lemma SameShapeClosed(s: State, s': State)
    requires Closed(s) && SameShape(s, s')
    ensures Closed(s')
  {
    forall l | l in s'.locks ensures Within(s'.locks[l].waiters, s'.threads.Keys) {
      forall t | t in s'.locks[l].waiters ensures t in s'.threads {
        assert t in multiset(s.locks[l].waiters);
      }
    }
  }

  lemma SameShapeRanked(s: State, s': State, rank: map<Tid, nat>)
    requires Ranked(s, rank) && SameShape(s, s')
    ensures Ranked(s', rank)
  {
  }

  lemma SameShapeTrans(a: State, b: State, c: State)
    requires SameShape(a, b) && SameShape(b, c)
    ensures SameShape(a, c)
  {
  }

  /** The donation loop of lock_acquire: follows pending locks from holder to holder, and stops at a
      free lock or at a holder of higher priority. */
  function Walk(s: State, donor: Tid, p: int, pending: Option<Lid>, ghost rank: map<Tid, nat>): State
    requires Closed(s) && Ranked(s, rank) && (pending.Some? ==> pending.value in s.locks)
    decreases Ahead(s, pending, rank)
  {
    if pending == None then s
    else
      var holder := s.locks[pending.value].holder;
      if holder == None || p < s.threads[holder.value].priority then s
      else
        var h := holder.value;
        GiveDonationShape(s, h, p, donor, pending.value);
        var s' := GiveDonation(s, h, p, donor, pending.value);
        SameShapeRanked(s, s', rank);
        AheadDrops(s, s', pending, rank);
        Walk(s', donor, p, s.threads[h].pending, rank)
  }

  /** How far the walk can still go. */
  ghost function Ahead(s: State, pending: Option<Lid>, rank: map<Tid, nat>): nat
    requires Closed(s) && Ranked(s, rank) && (pending.Some? ==> pending.value in s.locks)
  {
    if pending == None then 0
    else if s.locks[pending.value].holder == None then 1
    else rank[s.locks[pending.value].holder.value] + 2
  }

  lemma AheadDrops(s: State, s': State, pending: Option<Lid>, rank: map<Tid, nat>)
    requires Closed(s) && Ranked(s, rank) && pending.Some? && pending.value in s.locks
    requires s.locks[pending.value].holder.Some?
    requires Closed(s') && Ranked(s', rank) && SameShape(s, s')
    ensures var h := s.locks[pending.value].holder.value;
            && (s.threads[h].pending.Some? ==> s.threads[h].pending.value in s'.locks)
            && Ahead(s', s.threads[h].pending, rank) < Ahead(s, pending, rank)
  {
    var h := s.locks[pending.value].holder.value;
    assert Below(s, rank, s.threads[h].pending, rank[h]);
  }

  /** The holders the walk visits, in order. */
  ghost function Visited(s: State, p: int, pending: Option<Lid>, rank: map<Tid, nat>): seq<Tid>
    requires Closed(s) && Ranked(s, rank) && (pending.Some? ==> pending.value in s.locks)
    decreases Ahead(s, pending, rank)
  {
    if pending == None then []
    else
      var holder := s.locks[pending.value].holder;
      if holder == None || p < s.threads[holder.value].priority then []
      else
        AheadDrops(s, s, pending, rank);
        [holder.value] + Visited(s, p, s.threads[holder.value].pending, rank)
  }

  ghost predicate AgreeExcept(s: State, s': State, h: Tid) {
    && s'.threads.Keys == s.threads.Keys
    && forall t :: t in s.threads && t != h ==> s'.threads[t] == s.threads[t]
  }

  /** Changing a thread the walk has already passed does not change where it goes. */
  lemma {:induction false} VisitedFrame(s: State, s': State, p: int, pending: Option<Lid>, rank: map<Tid, nat>, h: Tid)
    requires Closed(s) && Ranked(s, rank) && (pending.Some? ==> pending.value in s.locks)
    requires Closed(s') && Ranked(s', rank) && SameShape(s, s') && AgreeExcept(s, s', h)
    requires h in rank && Below(s, rank, pending, rank[h])
    ensures Visited(s', p, pending, rank) == Visited(s, p, pending, rank)
    ensures h !in Visited(s, p, pending, rank)
    decreases Ahead(s, pending, rank)
  {
    if pending.Some? {
      var holder := s.locks[pending.value].holder;
      if holder.Some? && p >= s.threads[holder.value].priority {
        AheadDrops(s, s, pending, rank);
        BelowTrans(s, rank, pending, h);
        VisitedFrame(s, s', p, s.threads[holder.value].pending, rank, h);
      }
    }
  }

  lemma BelowTrans(s: State, rank: map<Tid, nat>, pending: Option<Lid>, h: Tid)
    requires Closed(s) && Ranked(s, rank) && pending.Some? && pending.value in s.locks
    requires s.locks[pending.value].holder.Some? && h in rank && Below(s, rank, pending, rank[h])
    ensures Below(s, rank, s.threads[s.locks[pending.value].holder.value].pending, rank[h])
  {
    var k := s.locks[pending.value].holder.value;
    assert Below(s, rank, s.threads[k].pending, rank[k]);
  }

  /** What the walk does: every visited holder ends exactly at the donor's priority (so at least as
      high), and no other thread changes. */
  lemma {:induction false} WalkEffect(s: State, donor: Tid, p: int, pending: Option<Lid>, rank: map<Tid, nat>)
    requires Closed(s) && Ranked(s, rank) && (pending.Some? ==> pending.value in s.locks)
    ensures var s', v := Walk(s, donor, p, pending, rank), Visited(s, p, pending, rank);
            && SameShape(s, s')
            && (forall t :: t in v ==> t in s'.threads && s'.threads[t].priority == p)
            && (forall t :: t in s.threads && t !in v ==> s'.threads[t] == s.threads[t])
    decreases Ahead(s, pending, rank)
  {
    hide SameShape, Closed, Ranked, GiveDonation, Ahead, Below;
    if pending.Some? {
      var holder := s.locks[pending.value].holder;
      HolderExists(s, pending.value);
      if holder.Some? && p >= s.threads[holder.value].priority {
        var h := holder.value;
        GiveDonationShape(s, h, p, donor, pending.value);
        var s1 := GiveDonation(s, h, p, donor, pending.value);
        SameShapeRanked(s, s1, rank);
        AheadDrops(s, s1, pending, rank);
        AheadDrops(s, s, pending, rank);
        var next := s.threads[h].pending;
        RankOf(s, rank, h);
        GiveDonationFrame(s, h, p, donor, pending.value);
        VisitedFrame(s, s1, p, next, rank, h);
        WalkEffect(s1, donor, p, next, rank);
        var s2 := Walk(s1, donor, p, next, rank);
        SameShapeTrans(s, s1, s2);
        WalkCombine(s, s1, s2, h, p, Visited(s, p, next, rank));
      } else {
        SameShapeRefl(s);
      }
    } else {
      SameShapeRefl(s);
    }
  }

  /** The lock through which the walk comes to the I-th holder: the first one, then the one that the holder
      before waits for. */
  ghost function Via(s: State, pending: Option<Lid>, v: seq<Tid>, i: nat): Option<Lid>
    requires i < |v|
  {
    if i == 0 then pending else if v[i - 1] in s.threads then s.threads[v[i - 1]].pending else None
  }

  /** TH after one more donation than BEFORE: D, which is its priority now. */
  ghost predicate Received(before: Thread, th: Thread, d: Donation) {
    && th == before.(priority := d.priority, donations := th.donations)
    && multiset(th.donations) == multiset(before.donations) + multiset{d}
  }

  ghost predicate RecordedAt(s: State, s': State, donor: Tid, p: int, pending: Option<Lid>, v: seq<Tid>, i: nat)
    requires i < |v|
  {
    var l := Via(s, pending, v, i);
    && l.Some? && l.value in s.locks && s.locks[l.value].holder == Some(v[i])
    && v[i] in s.threads && v[i] in s'.threads
    && Received(s.threads[v[i]], s'.threads[v[i]], Donation(p, donor, l.value))
  }

  /** Each holder on the way gets exactly one more donation: the donor's priority, for the lock that the one
      before it waits for. */
  lemma {:induction false} WalkRecords(s: State, donor: Tid, p: int, pending: Option<Lid>, rank: map<Tid, nat>)
    requires Closed(s) && Ranked(s, rank) && (pending.Some? ==> pending.value in s.locks)
    ensures var s', v := Walk(s, donor, p, pending, rank), Visited(s, p, pending, rank);
            forall i :: 0 <= i < |v| ==> RecordedAt(s, s', donor, p, pending, v, i)
    decreases Ahead(s, pending, rank)
  {
    hide SameShape, Closed, Ranked, GiveDonation, Ahead, Below, Received, RecordedAt;
    if pending.Some? {
      var holder := s.locks[pending.value].holder;
      HolderExists(s, pending.value);
      if holder.Some? && p >= s.threads[holder.value].priority {
        var h := holder.value;
        GiveDonationShape(s, h, p, donor, pending.value);
        var s1 := GiveDonation(s, h, p, donor, pending.value);
        SameShapeRanked(s, s1, rank);
        AheadDrops(s, s1, pending, rank);
        AheadDrops(s, s, pending, rank);
        var next := s.threads[h].pending;
        RankOf(s, rank, h);
        GiveDonationFrame(s, h, p, donor, pending.value);
        VisitedFrame(s, s1, p, next, rank, h);
        WalkRecords(s1, donor, p, next, rank);
        WalkEffect(s1, donor, p, next, rank);
        GiveDonationReceived(s, h, p, donor, pending.value);
        var v, s2 := Visited(s, p, next, rank), Walk(s1, donor, p, next, rank);
        SameKeys(s, s1);
        SameKeys(s1, s2);
        forall i | 0 <= i < |v| + 1 ensures RecordedAt(s, s2, donor, p, pending, [h] + v, i) {
          RecordsCombine(s, s1, s2, donor, p, pending, h, v, i);
        }
      }
    }
  }

  lemma GiveDonationReceived(s: State, h: Tid, p: int, donor: Tid, l: Lid)
    requires Closed(s) && h in s.threads && s.threads[h].priority <= p
    ensures h in GiveDonation(s, h, p, donor, l).threads
    ensures Received(s.threads[h], GiveDonation(s, h, p, donor, l).threads[h], Donation(p, donor, l))
  {
  }

  lemma RecordsCombine(s: State, s1: State, s2: State, donor: Tid, p: int, pending: Option<Lid>, h: Tid, v: seq<Tid>, i: nat)
    requires pending.Some? && pending.value in s.locks && s.locks[pending.value].holder == Some(h) && i <= |v|
    requires SameShape(s, s1) && AgreeExcept(s, s1, h) && h in s.threads && h in s1.threads && h !in v
    requires Received(s.threads[h], s1.threads[h], Donation(p, donor, pending.value))
    requires forall j :: 0 <= j < |v| ==> RecordedAt(s1, s2, donor, p, s.threads[h].pending, v, j)
    requires forall t :: t in s1.threads && t !in v ==> t in s2.threads && s2.threads[t] == s1.threads[t]
    ensures RecordedAt(s, s2, donor, p, pending, [h] + v, i)
  {
    hide Received;
    if i > 0 {
      assert RecordedAt(s1, s2, donor, p, s.threads[h].pending, v, i - 1);
      assert i > 1 ==> RecordedAt(s1, s2, donor, p, s.threads[h].pending, v, i - 2);
    }
  }

  lemma HolderExists(s: State, l: Lid)
    requires Closed(s) && l in s.locks
    ensures s.locks[l].holder.Some? ==> s.locks[l].holder.value in s.threads
  {
  }

  lemma RankOf(s: State, rank: map<Tid, nat>, h: Tid)
    requires Ranked(s, rank) && h in s.threads
    ensures h in rank && Below(s, rank, s.threads[h].pending, rank[h])
  {
  }

  lemma SameShapeRefl(s: State)
    ensures SameShape(s, s)
  {
  }

  lemma GiveDonationFrame(s: State, h: Tid, p: int, donor: Tid, l: Lid)
    requires Closed(s) && h in s.threads
    ensures AgreeExcept(s, GiveDonation(s, h, p, donor, l), h)
    ensures s.threads[h].priority <= p ==> h in GiveDonation(s, h, p, donor, l).threads && GiveDonation(s, h, p, donor, l).threads[h].priority == p
  {
  }

  lemma WalkCombine(s: State, s1: State, s2: State, h: Tid, p: int, v: seq<Tid>)
    requires SameShape(s, s1) && SameShape(s1, s2) && AgreeExcept(s, s1, h) && h in s1.threads && s1.threads[h].priority == p
    requires h !in v
    requires forall t :: t in v ==> t in s2.threads && s2.threads[t].priority == p
    requires forall t :: t in s1.threads && t !in v ==> s2.threads[t] == s1.threads[t]
    ensures forall t :: t in [h] + v ==> t in s2.threads && s2.threads[t].priority == p
    ensures forall t :: t in s.threads && t !in [h] + v ==> s2.threads[t] == s.threads[t]
  {
  }

  // ---------- the walk keeps every thread's donations in order ----------

  lemma DonationDom(ds: seq<Donation>, d: Donation, dom: set<Donation>)
    requires dom == (set e | e in ds) + {d}
    ensures StrictWeak(DonationLess(), dom) && Within(ds, dom) && d in dom
  {
    DonationLessWeak(dom);
  }

  lemma DescendingIsSorted(ds: seq<Donation>)
    ensures Descending(ds) <==> Sorted(DonationLess(), ds)
  {
    var less := DonationLess();
    if Descending(ds) {
      forall i, j | 0 <= i < j < |ds| ensures !less(ds[j], ds[i]) {
        assert ds[i].priority >= ds[j].priority;
      }
    }
    if Sorted(less, ds) {
      forall i, j | 0 <= i < j < |ds| ensures ds[i].priority >= ds[j].priority {
        assert !less(ds[j], ds[i]);
      }
    }
  }

  lemma InsertedDescending(ds: seq<Donation>, d: Donation)
    requires Descending(ds)
    ensures Descending(Inserted(DonationLess(), ds, d))
  {
    hide Descending, Inserted, Sorted;
    var dom := (set e | e in ds) + {d};
    DonationDom(ds, d, dom);
    DescendingIsSorted(ds);
    InsertSorted(DonationLess(), ds, d, dom);
    DescendingIsSorted(Inserted(DonationLess(), ds, d));
  }

  lemma InsertedHolds(locks: map<Lid, Lock>, h: Tid, ds: seq<Donation>, d: Donation)
    requires HoldsAll(locks, h, ds) && d.lock in locks && locks[d.lock].holder == Some(h)
    ensures HoldsAll(locks, h, Inserted(DonationLess(), ds, d))
  {
    hide InsertPos;
  }

  lemma InsertedEffective(original: int, ds: seq<Donation>, d: Donation)
    requires Effective(original, ds) <= d.priority
    ensures Effective(original, Inserted(DonationLess(), ds, d)) == d.priority
  {
    var less := DonationLess();
    var k := InsertPos(less, ds, d);
    assert k > 0 ==> !less(d, ds[0]);
  }

  lemma GiveDonationOk(s: State, h: Tid, p: int, donor: Tid, l: Lid)
    requires AllDonationsOk(s) && Closed(s) && h in s.threads
    requires l in s.locks && s.locks[l].holder == Some(h) && s.threads[h].priority <= p
    ensures AllDonationsOk(GiveDonation(s, h, p, donor, l))
  {
    hide Descending, Inserted, SortWaiters, Closed, SameShape;
    GiveDonationShape(s, h, p, donor, l);
    var s' := GiveDonation(s, h, p, donor, l);
    HoldersKept(s, s');
    forall t | t in s'.threads ensures DonationsOk(s', t) {
      assert DonationsOk(s, t);
      if t == h {
        var d := Donation(p, donor, l);
        InsertedDescending(s.threads[h].donations, d);
        InsertedHolds(s.locks, h, s.threads[h].donations, d);
        InsertedEffective(s.threads[h].original, s.threads[h].donations, d);
        HoldsAllKept(s, s', t, s'.threads[t].donations);
      } else {
        HoldsAllKept(s, s', t, s'.threads[t].donations);
      }
    }
  }

  lemma HoldersKept(s: State, s': State)
    requires SameShape(s, s')
    ensures s'.locks.Keys == s.locks.Keys && forall l :: l in s.locks ==> s'.locks[l].holder == s.locks[l].holder
  {
  }

  lemma HoldsAllKept(s: State, s': State, t: Tid, ds: seq<Donation>)
    requires HoldsAll(s.locks, t, ds)
    requires s'.locks.Keys == s.locks.Keys && forall l :: l in s.locks ==> s'.locks[l].holder == s.locks[l].holder
    ensures HoldsAll(s'.locks, t, ds)
  {
  }

  lemma {:induction false} WalkDonationsOk(s: State, donor: Tid, p: int, pending: Option<Lid>, rank: map<Tid, nat>)
    requires AllDonationsOk(s)
    requires Closed(s) && Ranked(s, rank) && (pending.Some? ==> pending.value in s.locks)
    ensures AllDonationsOk(Walk(s, donor, p, pending, rank))
    decreases Ahead(s, pending, rank)
  {
    hide SameShape, Closed, Ranked, GiveDonation, Ahead, Below, DonationsOk;
    if pending.Some? {
      var holder := s.locks[pending.value].holder;
      HolderExists(s, pending.value);
      if holder.Some? && p >= s.threads[holder.value].priority {
        var h := holder.value;
        GiveDonationShape(s, h, p, donor, pending.value);
        var s1 := GiveDonation(s, h, p, donor, pending.value);
        SameShapeRanked(s, s1, rank);
        AheadDrops(s, s1, pending, rank);
        GiveDonationOk(s, h, p, donor, pending.value);
        WalkDonationsOk(s1, donor, p, s.threads[h].pending, rank);
      }
    }
  }

  // ---------- the steps ----------

  /** sema_down's atomic pass on the lock's semaphore: wait when it is 0, otherwise take the lock. */
  function Down(s: State, t: Tid, l: Lid): State
    requires t in s.threads && l in s.locks
  {
    var k, th := s.locks[l], s.threads[t];
    if k.value == 0 then
      State(s.threads[t := th.(pc := Blocked(l))],
            s.locks[l := k.(waiters := Inserted(ThreadLess(s.threads), k.waiters, t))])
    else
      State(s.threads[t := th.(pending := None, pc := Running)],
            s.locks[l := k.(value := k.value - 1, holder := Some(t))])
  }

  /** The donation part of lock_acquire by thread T on lock L. */
  function Donate(s: State, t: Tid, l: Lid, ghost rank: map<Tid, nat>): State
    requires Closed(s) && t in s.threads && l in s.locks && Ranked(Waiting(s, t, l), rank)
  {
    if s.locks[l].holder == None then s
    else
      WaitingClosed(s, t, l);
      Walk(Waiting(s, t, l), t, s.threads[t].priority, Some(l), rank)
  }

  /** pending_lock set; nothing else. */
  function Waiting(s: State, t: Tid, l: Lid): State
    requires t in s.threads && l in s.locks
  {
    s.(threads := s.threads[t := s.threads[t].(pending := Some(l))])
  }

  lemma WaitingClosed(s: State, t: Tid, l: Lid)
    requires Closed(s) && t in s.threads && l in s.locks
    ensures Closed(Waiting(s, t, l))
  {
  }

  function Acquire(s: State, t: Tid, l: Lid, ghost rank: map<Tid, nat>): State
    requires Closed(s) && t in s.threads && l in s.locks && Ranked(Waiting(s, t, l), rank)
  {
    DonateShape(s, t, l, rank);
    Down(Donate(s, t, l, rank), t, l)
  }

  lemma DonateShape(s: State, t: Tid, l: Lid, rank: map<Tid, nat>)
    requires Closed(s) && t in s.threads && l in s.locks && Ranked(Waiting(s, t, l), rank)
    ensures SameShape(if s.locks[l].holder == None then s else Waiting(s, t, l), Donate(s, t, l, rank))
    ensures t in Donate(s, t, l, rank).threads && l in Donate(s, t, l, rank).locks
  {
    WaitingClosed(s, t, l);
    SameShapeRefl(s);
    if s.locks[l].holder != None {
      WalkEffect(Waiting(s, t, l), t, s.threads[t].priority, Some(l), rank);
    }
  }

  /** A pass of sema_down takes a free lock and changes nothing else; at a held one the thread queues. */
  ghost predicate TakesOrQueues(s: State, s': State, t: Tid, l: Lid)
    requires t in s.threads && l in s.locks
  {
    if s.locks[l].value > 0 then
      && s'.locks == s.locks[l := Lock(Some(t), s.locks[l].value - 1, s.locks[l].waiters)]
      && s'.threads == s.threads[t := s.threads[t].(pending := None, pc := Running)]
    else
      && s'.threads == s.threads[t := s.threads[t].(pc := Blocked(l))]
      && l in s'.locks && s'.locks == s.locks[l := s.locks[l].(waiters := s'.locks[l].waiters)]
      && multiset(s'.locks[l].waiters) == multiset(s.locks[l].waiters) + multiset{t}
  }

  lemma DownMeans(s: State, t: Tid, l: Lid)
    requires t in s.threads && l in s.locks
    ensures TakesOrQueues(s, Down(s, t, l), t, l)
  {
  }

  /** The donations that remain when lock L is released. */
  function Kept(ds: seq<Donation>, l: Lid): (r: seq<Donation>)
    ensures forall d :: d in r <==> d in ds && d.lock != l
  {
    if |ds| == 0 then []
    else if ds[0].lock == l then Kept(ds[1..], l)
    else [ds[0]] + Kept(ds[1..], l)
  }

  /** recalc_priority: the donation list is sorted again and its front compared with the original. */
  function Recalculated(th: Thread): Thread {
    if |th.donations| == 0 then th.(priority := th.original)
    else
      DonationLessWeak(set d | d in th.donations);
      var ds := Sort(DonationLess(), th.donations, set d | d in th.donations);
      th.(donations := ds, priority := Effective(th.original, ds))
  }

  /** sema_up on the lock's semaphore: sort the waiters, wake the first, add one. */
  function Up(s: State, l: Lid): State
    requires Closed(s) && l in s.locks
  {
    var k := s.locks[l];
    if |k.waiters| == 0 then s.(locks := s.locks[l := k.(value := k.value + 1)])
    else
      var w := SortWaiters(s.threads, k.waiters);
      assert |w| == |k.waiters| by { assert |multiset(w)| == |multiset(k.waiters)|; }
      assert w[0] in w;
      State(s.threads[w[0] := s.threads[w[0]].(pc := Woken(l))],
            s.locks[l := k.(waiters := w[1..], value := k.value + 1)])
  }

  function Release(s: State, t: Tid, l: Lid): State
    requires Closed(s) && t in s.threads && l in s.locks
  {
    var th := s.threads[t];
    var s1 := State(s.threads[t := Recalculated(th.(donations := Kept(th.donations, l)))],
                    s.locks[l := s.locks[l].(holder := None)]);
    Up(s1, l)
  }

  function SetPriority(s: State, t: Tid, p: int): State
    requires t in s.threads
  {
    var th := s.threads[t];
    s.(threads := s.threads[t := th.(original := p, priority := Effective(p, th.donations))])
  }

  function TryAcquire(s: State, t: Tid, l: Lid): State
    requires t in s.threads && l in s.locks
  {
    if s.locks[l].value > 0 then
      s.(locks := s.locks[l := s.locks[l].(value := s.locks[l].value - 1, holder := Some(t))])
    else s
  }

  // ---------- each step keeps the invariant ----------

  lemma LocksOkSameShape(s: State, s': State)
    requires AllLocksOk(s) && WaitersComplete(s) && SameShape(s, s')
    ensures AllLocksOk(s') && WaitersComplete(s')
  {
    forall l | l in s'.locks ensures LockOk(s', l) {
      assert LockOk(s, l);
      SameItems(s.locks[l].waiters, s'.locks[l].waiters);
      if SomeoneWoken(s, l) {
        var t :| t in s.threads && s.threads[t].pc == Woken(l);
        assert s'.threads[t].pc == Woken(l);
      }
    }
    forall t | t in s'.threads && s'.threads[t].pc.Blocked?
      ensures s'.threads[t].pc.lock in s'.locks && t in s'.locks[s'.threads[t].pc.lock].waiters
    {
      SameItems(s.locks[s.threads[t].pc.lock].waiters, s'.locks[s.threads[t].pc.lock].waiters);
    }
  }

  // --- waiting: the lock is taken, the thread joins the waiter list ---

  lemma BlockKeepsLocks(s: State, t: Tid, l: Lid)
    requires AllLocksOk(s) && WaitersComplete(s)
    requires t in s.threads && (s.threads[t].pc == Running || s.threads[t].pc == Woken(l))
    requires l in s.locks && s.locks[l].value == 0
    ensures AllLocksOk(Down(s, t, l)) && WaitersComplete(Down(s, t, l))
  {
    hide Inserted, NoDup, ThreadLess;
    var s' := Down(s, t, l);
    assert LockOk(s, l);
    var w, w' := s.locks[l].waiters, s'.locks[l].waiters;
    JoinNoDup(w, w', t);
    forall k | k in s'.locks ensures LockOk(s', k) {
      assert LockOk(s, k);
      if SomeoneWoken(s, k) && k != l {
        var u :| u in s.threads && s.threads[u].pc == Woken(k);
        assert u in s'.threads && s'.threads[u].pc == Woken(k);
      }
    }
  }

  // --- taking the lock ---

  lemma TakeKeepsLocks(s: State, t: Tid, l: Lid)
    requires AllLocksOk(s) && WaitersComplete(s)
    requires t in s.threads && (s.threads[t].pc == Running || s.threads[t].pc == Woken(l))
    requires l in s.locks && s.locks[l].value != 0
    ensures AllLocksOk(Down(s, t, l)) && WaitersComplete(Down(s, t, l))
  {
    hide NoDup;
    var s' := Down(s, t, l);
    assert LockOk(s, l);
    forall k | k in s'.locks ensures LockOk(s', k) {
      assert LockOk(s, k);
      if SomeoneWoken(s, k) && k != l {
        var u :| u in s.threads && s.threads[u].pc == Woken(k);
        assert u in s'.threads && s'.threads[u].pc == Woken(k);
      }
    }
  }

  /** Nobody has a donation for a lock that is free. */
  lemma FreeLockNoDonation(s: State, l: Lid, t: Tid, i: int)
    requires AllDonationsOk(s) && l in s.locks && s.locks[l].holder == None
    requires t in s.threads && 0 <= i < |s.threads[t].donations|
    ensures s.threads[t].donations[i].lock != l
  {
    assert DonationsOk(s, t);
  }

  lemma DownKeepsDonations(s: State, t: Tid, l: Lid)
    requires AllDonationsOk(s) && t in s.threads && l in s.locks
    requires s.locks[l].value != 0 ==> s.locks[l].holder == None
    ensures AllDonationsOk(Down(s, t, l))
  {
    hide Descending, Inserted;
    var s' := Down(s, t, l);
    forall u | u in s'.threads ensures DonationsOk(s', u) {
      assert DonationsOk(s, u);
      forall i | 0 <= i < |s'.threads[u].donations|
        ensures s'.threads[u].donations[i].lock in s'.locks
        ensures s'.locks[s'.threads[u].donations[i].lock].holder == Some(u)
      {
        if s.locks[l].value != 0 {
          FreeLockNoDonation(s, l, u, i);
        }
      }
    }
  }

  /** lock_acquire keeps the invariant, whether it takes the lock or donates and waits. */
  lemma AcquireKeeps(s: State, t: Tid, l: Lid, rank: map<Tid, nat>)
    requires Inv(s) && t in s.threads && l in s.locks && s.threads[t].pc == Running
    requires Closed(s) && Ranked(Waiting(s, t, l), rank)
    ensures Inv(Acquire(s, t, l, rank))
  {
    hide Walk, AllDonationsOk, Ranked, LockOk, Closed, SameShape, DonationsOk, WaitersComplete;
    var s1 := if s.locks[l].holder == None then s else Waiting(s, t, l);
    var s2 := Donate(s, t, l, rank);
    DonateShape(s, t, l, rank);
    DonateKeepsDonations(s, t, l, rank);
    WaitingKeepsLocks(s, t, l);
    LocksOkSameShape(s1, s2);
    ShapeOf(s1, s2, t, l);
    LockState(s, l);
    DownKeepsDonations(s2, t, l);
    if s.locks[l].holder == None {
      TakeKeepsLocks(s2, t, l);
    } else {
      BlockKeepsLocks(s2, t, l);
    }
    AcquirePending(s, t, l, rank);
  }

  lemma LockState(s: State, l: Lid)
    requires AllLocksOk(s) && l in s.locks
    ensures s.locks[l].holder == None <==> s.locks[l].value != 0
    ensures s.locks[l].holder.Some? ==> s.locks[l].holder.value in s.threads
  {
    assert LockOk(s, l);
  }

  lemma ShapeOf(s: State, s': State, t: Tid, l: Lid)
    requires SameShape(s, s') && t in s.threads && l in s.locks
    ensures t in s'.threads && s'.threads[t].pc == s.threads[t].pc && s'.threads[t].pending == s.threads[t].pending
    ensures l in s'.locks && s'.locks[l].holder == s.locks[l].holder && s'.locks[l].value == s.locks[l].value
  {
  }

  lemma DonateKeepsDonations(s: State, t: Tid, l: Lid, rank: map<Tid, nat>)
    requires AllDonationsOk(s) && Closed(s) && t in s.threads && l in s.locks && Ranked(Waiting(s, t, l), rank)
    ensures AllDonationsOk(Donate(s, t, l, rank))
  {
    hide Walk, Ranked;
    if s.locks[l].holder != None {
      WaitingClosed(s, t, l);
      var s1 := Waiting(s, t, l);
      forall u | u in s1.threads ensures DonationsOk(s1, u) {
        assert DonationsOk(s, u);
      }
      WalkDonationsOk(s1, t, s.threads[t].priority, Some(l), rank);
    }
  }

  lemma WaitingKeepsLocks(s: State, t: Tid, l: Lid)
    requires AllLocksOk(s) && WaitersComplete(s) && t in s.threads && l in s.locks
    ensures AllLocksOk(Waiting(s, t, l)) && WaitersComplete(Waiting(s, t, l))
  {
    var s' := Waiting(s, t, l);
    forall k | k in s'.locks ensures LockOk(s', k) {
      assert LockOk(s, k);
      if SomeoneWoken(s, k) {
        var u :| u in s.threads && s.threads[u].pc == Woken(k);
        assert u in s'.threads && s'.threads[u].pc == Woken(k);
      }
    }
  }

  lemma AcquirePending(s: State, t: Tid, l: Lid, rank: map<Tid, nat>)
    requires PendingOk(s) && AllLocksOk(s) && Closed(s) && t in s.threads && l in s.locks
    requires Ranked(Waiting(s, t, l), rank) && s.threads[t].pc == Running
    ensures PendingOk(Acquire(s, t, l, rank))
  {
    hide Ranked, Walk, SameShape, PendingOkAt;
    var s1 := if s.locks[l].holder == None then s else Waiting(s, t, l);
    var s2 := Donate(s, t, l, rank);
    DonateShape(s, t, l, rank);
    LockState(s, l);
    PendingSameShape(s1, s2, t);
    assert PendingOkAt(s.locks.Keys, s.threads[t]);
    RunningNotPending(s.locks.Keys, s.threads[t]);
    ShapeOf(s1, s2, t, l);
    DownPending(s2, t, l);
  }

  lemma RunningNotPending(locks: set<Lid>, th: Thread)
    requires PendingOkAt(locks, th) && th.pc == Running
    ensures th.pending == None
  {
  }

  lemma PendingSameShape(s: State, s': State, t: Tid)
    requires SameShape(s, s')
    requires forall u :: u in s.threads && u != t ==> PendingOkAt(s.locks.Keys, s.threads[u])
    ensures forall u :: u in s'.threads && u != t ==> PendingOkAt(s'.locks.Keys, s'.threads[u])
  {
  }

  lemma DownPending(s: State, t: Tid, l: Lid)
    requires t in s.threads && l in s.locks
    requires s.locks[l].value == 0 ==> s.threads[t].pending == Some(l)
    requires forall u :: u in s.threads && u != t ==> PendingOkAt(s.locks.Keys, s.threads[u])
    ensures PendingOk(Down(s, t, l))
  {
    hide Inserted;
    var s' := Down(s, t, l);
    assert s'.locks.Keys == s.locks.Keys;
  }

  // --- the other steps ---

  /** A woken thread rechecks the semaphore. */
  lemma ResumeKeeps(s: State, t: Tid, l: Lid)
    requires Inv(s) && t in s.threads && l in s.locks && s.threads[t].pc == Woken(l)
    ensures Inv(Down(s, t, l))
  {
    hide LockOk, DonationsOk, WaitersComplete;
    LockState(s, l);
    DownKeepsDonations(s, t, l);
    assert PendingOkAt(s.locks.Keys, s.threads[t]);
    DownPending(s, t, l);
    if s.locks[l].value != 0 {
      TakeKeepsLocks(s, t, l);
    } else {
      BlockKeepsLocks(s, t, l);
    }
  }

  lemma TryAcquireKeeps(s: State, t: Tid, l: Lid)
    requires Inv(s) && t in s.threads && l in s.locks && s.threads[t].pc == Running
    ensures Inv(TryAcquire(s, t, l))
  {
    hide LockOk, DonationsOk, WaitersComplete;
    LockState(s, l);
    if s.locks[l].value > 0 {
      assert PendingOkAt(s.locks.Keys, s.threads[t]);
      var th := s.threads[t];
      assert s.threads == s.threads[t := th.(pending := None, pc := Running)];
      assert TryAcquire(s, t, l) == Down(s, t, l);
      DownKeepsDonations(s, t, l);
      DownPending(s, t, l);
      TakeKeepsLocks(s, t, l);
    }
  }

  lemma SetPriorityKeeps(s: State, t: Tid, p: int)
    requires Inv(s) && t in s.threads
    ensures Inv(SetPriority(s, t, p))
  {
    hide Descending, NoDup;
    var s' := SetPriority(s, t, p);
    forall u | u in s'.threads ensures DonationsOk(s', u) { assert DonationsOk(s, u); }
    ThreadFieldsKept(s, s');
  }

  /** Changing priorities and donations only leaves the lock side alone. */
  lemma ThreadFieldsKept(s: State, s': State)
    requires AllLocksOk(s) && WaitersComplete(s) && PendingOk(s)
    requires s'.locks == s.locks && s'.threads.Keys == s.threads.Keys
    requires forall u :: u in s.threads ==> s'.threads[u].pc == s.threads[u].pc && s'.threads[u].pending == s.threads[u].pending
    ensures AllLocksOk(s') && WaitersComplete(s') && PendingOk(s')
  {
    forall k | k in s'.locks ensures LockOk(s', k) {
      assert LockOk(s, k);
      if SomeoneWoken(s, k) {
        var u :| u in s.threads && s.threads[u].pc == Woken(k);
        assert u in s'.threads && s'.threads[u].pc == Woken(k);
      }
    }
    forall u | u in s'.threads ensures PendingOkAt(s'.locks.Keys, s'.threads[u]) {
      assert PendingOkAt(s.locks.Keys, s.threads[u]);
    }
  }

  // --- releasing ---

  lemma DescendingTail(ds: seq<Donation>)
    requires Descending(ds) && |ds| > 0
    ensures Descending(ds[1..]) && forall e :: e in ds[1..] ==> ds[0].priority >= e.priority
  {
    var t := ds[1..];
    assert forall i :: 0 <= i < |t| ==> t[i] == ds[i + 1];
  }

  lemma DescendingCons(d: Donation, ds: seq<Donation>)
    requires Descending(ds) && forall e :: e in ds ==> d.priority >= e.priority
    ensures Descending([d] + ds)
  {
    var r := [d] + ds;
    assert forall i :: 0 < i < |r| ==> r[i] == ds[i - 1] && r[i] in ds;
  }

  lemma {:induction false} KeptDescending(ds: seq<Donation>, l: Lid)
    requires Descending(ds)
    ensures Descending(Kept(ds, l)) && forall e :: e in Kept(ds, l) ==> e in ds
  {
    hide Descending;
    if |ds| > 0 {
      DescendingTail(ds);
      KeptDescending(ds[1..], l);
      DescendingCons(ds[0], Kept(ds[1..], l));
    }
  }

  /** Re-sorting donations that are in order changes nothing. */
  lemma RecalculatedIs(th: Thread)
    requires Descending(th.donations)
    ensures Recalculated(th) == th.(priority := Effective(th.original, th.donations))
  {
    hide Sorted, Descending;
    var ds := th.donations;
    if |ds| > 0 {
      var dom := set d | d in ds;
      DonationLessWeak(dom);
      DescendingIsSorted(ds);
      SortCorrect(DonationLess(), ds, dom);
      var r := Sort(DonationLess(), ds, dom);
      assert Within(r, dom) by { forall e | e in r ensures e in dom { assert e in multiset(ds); } }
      SortedUnique(DonationLess(), ds, r, dom);
    }
  }

  /** sema_up wakes, of the waiters with the highest priority they have now, the one that stood first; the
      others go on waiting, and the value rises by one. */
  lemma UpWakesHighest(s: State, l: Lid) returns (i: nat)
    requires Closed(s) && l in s.locks && |s.locks[l].waiters| > 0
    ensures var w, s' := s.locks[l].waiters, Up(s, l);
            && i < |w| && w[i] in s.threads
            && (forall j :: 0 <= j < |w| ==> w[j] in s.threads && s.threads[w[j]].priority <= s.threads[w[i]].priority)
            && (forall j :: 0 <= j < i ==> s.threads[w[j]].priority < s.threads[w[i]].priority)
            && s'.threads == s.threads[w[i] := s.threads[w[i]].(pc := Woken(l))]
            && s'.locks == s.locks[l := s.locks[l].(waiters := s'.locks[l].waiters, value := s.locks[l].value + 1)]
            && multiset(s'.locks[l].waiters) == multiset(w) - multiset{w[i]}
  {
    hide SortWaiters, Sorted, Up, Closed, Within;
    var k := s.locks[l].waiters;
    ClosedWaiters(s, l);
    i := SortedFirst(s.threads, k);
    TailItems(SortWaiters(s.threads, k));
    UpFacts(s, l);
    WakeOrderItems(s, l);
  }

  /** Sorting puts the first of the waiters with the highest priority in front. */
  lemma SortedFirst(threads: map<Tid, Thread>, w: seq<Tid>) returns (i: nat)
    requires Within(w, threads.Keys) && w != []
    ensures SortWaiters(threads, w) != [] && i < |w| && w[i] == SortWaiters(threads, w)[0]
    ensures forall j :: 0 <= j < |w| ==> w[j] in threads && threads[w[j]].priority <= threads[w[i]].priority
    ensures forall j :: 0 <= j < i ==> threads[w[j]].priority < threads[w[i]].priority
  {
    hide StrictWeak, Sorted, StableFor;
    ThreadLessWeak(threads);
    SortCorrect(ThreadLess(threads), w, threads.Keys);
    i := FrontFirst(ThreadLess(threads), w, SortWaiters(threads, w), threads.Keys);
    forall j | 0 <= j < |w| ensures w[j] in threads && threads[w[j]].priority <= threads[w[i]].priority {
      assert !ThreadLess(threads)(w[j], w[i]);
    }
  }

  lemma ReleasedThread(s: State, t: Tid, l: Lid)
    requires AllDonationsOk(s) && t in s.threads && l in s.locks
    ensures var th := Recalculated(s.threads[t].(donations := Kept(s.threads[t].donations, l)));
            && th == s.threads[t].(donations := Kept(s.threads[t].donations, l),
                                   priority := Effective(s.threads[t].original, Kept(s.threads[t].donations, l)))
            && Descending(th.donations)
  {
    hide Descending, Sorted;
    assert DonationsOk(s, t);
    KeptDescending(s.threads[t].donations, l);
    RecalculatedIs(s.threads[t].(donations := Kept(s.threads[t].donations, l)));
  }

  /** The state between the priority recomputation and sema_up. */
  ghost function Dropped(s: State, t: Tid, l: Lid): State
    requires t in s.threads && l in s.locks
  {
    State(s.threads[t := Recalculated(s.threads[t].(donations := Kept(s.threads[t].donations, l)))],
          s.locks[l := s.locks[l].(holder := None)])
  }

  lemma DroppedDonationsOk(s: State, t: Tid, l: Lid)
    requires AllDonationsOk(s) && t in s.threads && l in s.locks && s.locks[l].holder == Some(t)
    ensures AllDonationsOk(Dropped(s, t, l))
  {
    hide Descending, Kept, Recalculated;
    var s' := Dropped(s, t, l);
    ReleasedThread(s, t, l);
    forall u | u in s'.threads ensures DonationsOk(s', u) {
      assert DonationsOk(s, u);
      var ds := s'.threads[u].donations;
      forall i | 0 <= i < |ds| ensures ds[i].lock in s'.locks && s'.locks[ds[i].lock].holder == Some(u) {
        assert ds[i] in ds;
        assert ds[i] in s.threads[u].donations;
      }
    }
  }

  lemma DonationsFrame(s: State, s': State)
    requires AllDonationsOk(s) && s'.threads.Keys == s.threads.Keys
    requires forall u :: u in s.threads ==>
      && s'.threads[u].donations == s.threads[u].donations
      && s'.threads[u].original == s.threads[u].original && s'.threads[u].priority == s.threads[u].priority
    requires s'.locks.Keys == s.locks.Keys && forall l :: l in s.locks ==> s'.locks[l].holder == s.locks[l].holder
    ensures AllDonationsOk(s')
  {
    hide Descending, HoldsAll;
    forall u | u in s'.threads ensures DonationsOk(s', u) {
      assert DonationsOk(s, u);
      HoldsAllKept(s, s', u, s.threads[u].donations);
    }
  }

  lemma UpDonationsOk(s: State, l: Lid)
    requires AllDonationsOk(s) && Closed(s) && l in s.locks
    ensures AllDonationsOk(Up(s, l))
  {
    hide DonationsOk, SortWaiters, Closed;
    DonationsFrame(s, Up(s, l));
  }

  lemma DroppedShape(s: State, t: Tid, l: Lid)
    requires Closed(s) && t in s.threads && l in s.locks
    ensures var s' := Dropped(s, t, l);
            && Closed(s') && s'.threads.Keys == s.threads.Keys && s'.locks == s.locks[l := s.locks[l].(holder := None)]
            && (forall u :: u in s.threads ==> s'.threads[u].pc == s.threads[u].pc && s'.threads[u].pending == s.threads[u].pending)
  {
    hide Kept, Recalculated;
    RecalculatedFields(s.threads[t].(donations := Kept(s.threads[t].donations, l)));
  }

  lemma RecalculatedFields(th: Thread)
    ensures Recalculated(th).pc == th.pc && Recalculated(th).pending == th.pending && Recalculated(th).original == th.original
  {
  }

  /** After sema_up on a lock whose holder has just been cleared: W is the sorted waiter list. */
  ghost predicate Handed(s: State, s': State, l: Lid, w: seq<Tid>)
    requires l in s.locks
  {
    && s'.threads.Keys == s.threads.Keys
    && s'.locks == s.locks[l := Lock(None, 1, if |w| > 0 then w[1..] else [])]
    && multiset(w) == multiset(s.locks[l].waiters)
    && (forall u :: u in s.threads ==> s'.threads[u].pending == s.threads[u].pending)
    && (forall u :: u in s.threads ==>
        s'.threads[u].pc == if |w| > 0 && u == w[0] then Woken(l) else s.threads[u].pc)
  }

  /** The waiters of L in the order sema_up sees them. */
  ghost function WakeOrder(s: State, l: Lid): seq<Tid>
    requires Closed(s) && l in s.locks
  {
    if |s.locks[l].waiters| == 0 then [] else SortWaiters(s.threads, s.locks[l].waiters)
  }

  lemma UpHands(s: State, s1: State, l: Lid)
    requires l in s.locks && s.locks[l].value == 0
    requires Closed(s1) && s1.threads.Keys == s.threads.Keys && s1.locks == s.locks[l := s.locks[l].(holder := None)]
    requires forall u :: u in s.threads ==> s1.threads[u].pc == s.threads[u].pc && s1.threads[u].pending == s.threads[u].pending
    ensures Handed(s, Up(s1, l), l, WakeOrder(s1, l))
  {
    hide Up, Closed, WakeOrder;
    WakeOrderItems(s1, l);
    UpFacts(s1, l);
  }

  lemma UpFacts(s: State, l: Lid)
    requires Closed(s) && l in s.locks
    ensures var w := WakeOrder(s, l);
            && (|w| > 0 ==> w[0] in s.threads)
            && Up(s, l).threads == (if |w| == 0 then s.threads else s.threads[w[0] := s.threads[w[0]].(pc := Woken(l))])
            && Up(s, l).locks == s.locks[l := s.locks[l].(waiters := if |w| > 0 then w[1..] else [], value := s.locks[l].value + 1)]
  {
    hide SortWaiters;
    WakeOrderItems(s, l);
    if |s.locks[l].waiters| > 0 {
      assert WakeOrder(s, l)[0] in WakeOrder(s, l);
    } else {
      assert s.locks[l].waiters == [];
    }
  }

  lemma ClosedWaiters(s: State, l: Lid)
    requires Closed(s) && l in s.locks
    ensures Within(s.locks[l].waiters, s.threads.Keys)
  {
  }

  lemma WakeOrderItems(s: State, l: Lid)
    requires Closed(s) && l in s.locks
    ensures multiset(WakeOrder(s, l)) == multiset(s.locks[l].waiters)
    ensures |WakeOrder(s, l)| == |s.locks[l].waiters|
  {
    SameItems(WakeOrder(s, l), s.locks[l].waiters);
  }

  lemma UpKeepsLocks(s: State, s1: State, l: Lid)
    requires AllLocksOk(s) && WaitersComplete(s) && PendingOk(s) && l in s.locks && s.locks[l].value == 0
    requires Closed(s1) && s1.threads.Keys == s.threads.Keys && s1.locks == s.locks[l := s.locks[l].(holder := None)]
    requires forall u :: u in s.threads ==> s1.threads[u].pc == s.threads[u].pc && s1.threads[u].pending == s.threads[u].pending
    ensures AllLocksOk(Up(s1, l)) && WaitersComplete(Up(s1, l)) && PendingOk(Up(s1, l))
  {
    hide AllLocksOk, WaitersComplete, PendingOk, WakeOrder, Up, Handed, Closed;
    UpHands(s, s1, l);
    HandedKeeps(s, Up(s1, l), l, WakeOrder(s1, l));
  }

  lemma HandedKeeps(s: State, s': State, l: Lid, w: seq<Tid>)
    requires AllLocksOk(s) && WaitersComplete(s) && PendingOk(s) && l in s.locks && Handed(s, s', l, w)
    ensures AllLocksOk(s') && WaitersComplete(s') && PendingOk(s')
  {
    hide NoDup, PendingOkAt, WaitersComplete, AllLocksOk, PendingOk;
    SameItems(s.locks[l].waiters, w);
    HandedPcs(s, s', l, w);
    assert PendingOk(s') by { PendingFieldsKept(s, s'); }
    HandedLocks(s, s', l, w);
    HandedComplete(s, s', l, w);
  }

  lemma HandedPcs(s: State, s': State, l: Lid, w: seq<Tid>)
    requires AllLocksOk(s) && l in s.locks && Handed(s, s', l, w)
    ensures |w| > 0 ==> w[0] in s.threads && s.threads[w[0]].pc == Blocked(l)
  {
    hide NoDup;
    assert LockOk(s, l);
    if |w| > 0 {
      assert w[0] in multiset(s.locks[l].waiters);
    }
  }

  lemma HandedLocks(s: State, s': State, l: Lid, w: seq<Tid>)
    requires AllLocksOk(s) && l in s.locks && Handed(s, s', l, w)
    requires |w| > 0 ==> w[0] in s.threads && s.threads[w[0]].pc == Blocked(l)
    ensures AllLocksOk(s')
  {
    hide NoDup;
    assert LockOk(s, l);
    SameItems(s.locks[l].waiters, w);
    if |w| > 0 {
      TailNoDup(w);
      assert s'.threads[w[0]].pc == Woken(l);
      assert SomeoneWoken(s', l);
    }
    EmptyNoDup();
    forall k | k in s'.locks ensures LockOk(s', k) {
      assert LockOk(s, k);
      WokenKept(s, s', k);
    }
  }

  lemma EmptyNoDup()
    ensures NoDup<Tid>([])
  {
  }

  lemma HandedComplete(s: State, s': State, l: Lid, w: seq<Tid>)
    requires AllLocksOk(s) && WaitersComplete(s) && l in s.locks && Handed(s, s', l, w)
    ensures WaitersComplete(s')
  {
    hide NoDup;
    assert LockOk(s, l);
    SameItems(s.locks[l].waiters, w);
    if |w| > 0 { TailNoDup(w); }
  }

  lemma WokenKept(s: State, s': State, k: Lid)
    requires forall u :: u in s.threads && s.threads[u].pc.Woken? ==> u in s'.threads && s'.threads[u].pc == s.threads[u].pc
    ensures SomeoneWoken(s, k) ==> SomeoneWoken(s', k)
  {
    if SomeoneWoken(s, k) {
      var u :| u in s.threads && s.threads[u].pc == Woken(k);
      assert u in s'.threads && s'.threads[u].pc == Woken(k);
    }
  }

  lemma PendingFieldsKept(s: State, s': State)
    requires PendingOk(s) && s'.threads.Keys == s.threads.Keys && s'.locks.Keys == s.locks.Keys
    requires forall u :: u in s.threads ==> s'.threads[u].pending == s.threads[u].pending
    requires forall u :: u in s.threads ==>
      s'.threads[u].pc == s.threads[u].pc || (s.threads[u].pc.Blocked? && s'.threads[u].pc == Woken(s.threads[u].pc.lock))
    ensures PendingOk(s')
  {
    forall u | u in s'.threads ensures PendingOkAt(s'.locks.Keys, s'.threads[u]) {
      assert PendingOkAt(s.locks.Keys, s.threads[u]);
    }
  }

  lemma ReleaseKeeps(s: State, t: Tid, l: Lid)
    requires Inv(s) && Closed(s) && t in s.threads && l in s.locks && s.locks[l].holder == Some(t)
    ensures Inv(Release(s, t, l))
  {
    hide AllDonationsOk, AllLocksOk, WaitersComplete, PendingOk, Closed, Recalculated, Up, Kept;
    var s1 := Dropped(s, t, l);
    DroppedShape(s, t, l);
    DroppedDonationsOk(s, t, l);
    UpDonationsOk(s1, l);
    LockState(s, l);
    UpKeepsLocks(s, s1, l);
  }

  // ---------- runs of uninterrupted calls ----------

  datatype Op =
    | AcquireOp(t: Tid, l: Lid, rank: map<Tid, nat>)
    | ResumeOp(t: Tid, l: Lid)
    | TryAcquireOp(t: Tid, l: Lid)
    | ReleaseOp(t: Tid, l: Lid)
    | SetPriorityOp(t: Tid, p: int)

  /** What the code demands of each call: the lock is not already held by the caller, a release comes
      from the holder, and waiting does not close a cycle. */
  ghost predicate Enabled(s: State, op: Op) {
    op.t in s.threads && (!op.SetPriorityOp? ==> op.l in s.locks) &&
    match op
    case AcquireOp(t, l, rank) =>
      s.threads[t].pc == Running && s.locks[l].holder != Some(t) && Ranked(Waiting(s, t, l), rank)
    case ResumeOp(t, l) => s.threads[t].pc == Woken(l)
    case TryAcquireOp(t, l) => s.threads[t].pc == Running && s.locks[l].holder != Some(t)
    case ReleaseOp(t, l) => s.threads[t].pc == Running && s.locks[l].holder == Some(t)
    case SetPriorityOp(t, p) => s.threads[t].pc == Running
  }

  ghost function Apply(s: State, op: Op): State
    requires Closed(s) && Enabled(s, op)
  {
    match op
    case AcquireOp(t, l, rank) => Acquire(s, t, l, rank)
    case ResumeOp(t, l) => Down(s, t, l)
    case TryAcquireOp(t, l) => TryAcquire(s, t, l)
    case ReleaseOp(t, l) => Release(s, t, l)
    case SetPriorityOp(t, p) => SetPriority(s, t, p)
  }

  lemma ApplyKeeps(s: State, op: Op)
    requires Inv(s) && Closed(s) && Enabled(s, op)
    ensures Inv(Apply(s, op)) && Closed(Apply(s, op))
  {
    hide Inv, Closed, Acquire, Down, TryAcquire, Release, SetPriority, Ranked;
    match op
    case AcquireOp(t, l, rank) => AcquireKeeps(s, t, l, rank); InvGivesClosed(Apply(s, op));
    case ResumeOp(t, l) => ResumeKeeps(s, t, l); InvGivesClosed(Apply(s, op));
    case TryAcquireOp(t, l) => TryAcquireKeeps(s, t, l); InvGivesClosed(Apply(s, op));
    case ReleaseOp(t, l) => ReleaseKeeps(s, t, l); InvGivesClosed(Apply(s, op));
    case SetPriorityOp(t, p) => SetPriorityKeeps(s, t, p); InvGivesClosed(Apply(s, op));
  }

  lemma InvGivesClosed(s: State)
    requires Inv(s)
    ensures Closed(s)
  {
    InvClosed(s);
  }

  /** TR is a run of uninterrupted calls. */
  ghost predicate IsRun(tr: seq<State>, ops: seq<Op>) {
    && |tr| == |ops| + 1
    && forall i :: 0 <= i < |ops| ==> Closed(tr[i]) && Enabled(tr[i], ops[i]) && tr[i + 1] == Apply(tr[i], ops[i])
  }

  /** Every state of every such run from a good start satisfies the invariant. */
  lemma {:induction false} RunKeepsInv(tr: seq<State>, ops: seq<Op>, i: nat)
    requires IsRun(tr, ops) && Inv(tr[0]) && i < |tr|
    ensures Inv(tr[i])
  {
    hide Inv, Closed, Enabled, Apply;
    if i > 0 {
      RunKeepsInv(tr, ops, i - 1);
      InvGivesClosed(tr[i - 1]);
      assert tr[i - 1 + 1] == Apply(tr[i - 1], ops[i - 1]);
      ApplyKeeps(tr[i - 1], ops[i - 1]);
    }
  }

  // ---------- how far donation protects a waiter ----------

  /** When lock_acquire waits, every holder the walk visits ends exactly at the waiter's priority and
      all other threads but the waiter itself are untouched. */
  lemma DonateEffect(s: State, t: Tid, l: Lid, rank: map<Tid, nat>, s1: State)
    requires Closed(s) && t in s.threads && l in s.locks && s.locks[l].holder.Some?
    requires s1 == Waiting(s, t, l) && Closed(s1) && Ranked(s1, rank)
    ensures var s', v := Donate(s, t, l, rank), Visited(s1, s.threads[t].priority, Some(l), rank);
            && t !in v && t in s'.threads && s'.threads[t] == s1.threads[t]
            && (forall u :: u in v ==> u in s'.threads && s'.threads[u].priority == s.threads[t].priority)
            && (forall u :: u in s.threads && u != t && u !in v ==> u in s'.threads && s'.threads[u] == s.threads[u])
  {
    hide SameShape, Walk, Closed, Visited;
    var p := s.threads[t].priority;
    WalkEffect(s1, t, p, Some(l), rank);
    RankOf(s1, rank, t);
    SameShapeRefl(s1);
    VisitedFrame(s1, s1, p, Some(l), rank, t);
    SameKeys(s1, Donate(s, t, l, rank));
  }

  lemma SameKeys(s: State, s': State)
    requires SameShape(s, s')
    ensures s'.threads.Keys == s.threads.Keys
  {
  }

  /** So the thread holding the lock is at least as high as the thread that has just queued for it. */
  lemma AcquireRaisesHolder(s: State, t: Tid, l: Lid, rank: map<Tid, nat>, s1: State)
    requires Closed(s) && t in s.threads && l in s.locks && s.locks[l].holder.Some? && s.locks[l].value == 0
    requires s1 == Waiting(s, t, l) && Closed(s1) && Ranked(s1, rank)
    ensures var s', h := Acquire(s, t, l, rank), s.locks[l].holder.value;
            && h in s'.threads && t in s'.threads && s'.threads[t].pc == Blocked(l)
            && (h != t ==> s'.threads[h].priority >= s.threads[t].priority)
  {
    hide SameShape, Walk, Closed, Ranked, Inserted;
    var d, h, p := Donate(s, t, l, rank), s.locks[l].holder.value, s.threads[t].priority;
    HolderExists(s, l);
    DonateShape(s, t, l, rank);
    ShapeOf(s1, d, t, l);
    SameKeys(s1, d);
    DonateEffect(s, t, l, rank, s1);
    if p >= s1.threads[h].priority {
      FirstVisited(s1, p, l, rank);
    }
    assert Acquire(s, t, l, rank) == Down(d, t, l);
  }

  /** lock_acquire, uninterrupted: a free lock is taken and nothing else changes; at a held one the caller queues
      with its pending lock set and its priority as it was, the lock stays with its holder, who then is at least
      as high as the caller, and no other thread starts or stops waiting. */
  ghost predicate AcquiredOrQueued(s: State, s': State, t: Tid, l: Lid)
    requires t in s.threads && l in s.locks
  {
    if s.locks[l].holder == None then s' == s.(locks := s.locks[l := Lock(Some(t), 0, s.locks[l].waiters)])
    else
      var h := s.locks[l].holder.value;
      && s'.threads.Keys == s.threads.Keys && s'.locks.Keys == s.locks.Keys
      && s'.threads[t] == s.threads[t].(pending := Some(l), pc := Blocked(l))
      && s'.locks[l] == s.locks[l].(waiters := s'.locks[l].waiters)
      && multiset(s'.locks[l].waiters) == multiset(s.locks[l].waiters) + multiset{t}
      && h in s.threads && s'.threads[h].priority >= s.threads[t].priority
      && forall u :: u in s.threads && u != t ==> StillThere(s.threads[u], s'.threads[u])
  }

  predicate StillThere(a: Thread, b: Thread) { b.pc == a.pc && b.pending == a.pending && b.original == a.original }

  lemma AcquireMeans(s: State, t: Tid, l: Lid, rank: map<Tid, nat>)
    requires Inv(s) && Closed(s) && Enabled(s, AcquireOp(t, l, rank))
    ensures AcquiredOrQueued(s, Acquire(s, t, l, rank), t, l)
  {
    hide SameShape, Walk, Closed, Ranked, Inserted, Down, AllDonationsOk, WaitersComplete, AllLocksOk;
    LockState(s, l);
    var d := Donate(s, t, l, rank);
    DonateShape(s, t, l, rank);
    DownMeans(d, t, l);
    if s.locks[l].holder == None {
      RunningHasNoPending(s, t, l);
    } else {
      var s1 := Waiting(s, t, l);
      WaitingClosed(s, t, l);
      QueuedShape(s1, d, t, l);
      DonateEffect(s, t, l, rank, s1);
      AcquireRaisesHolder(s, t, l, rank, s1);
    }
  }

  lemma RunningHasNoPending(s: State, t: Tid, l: Lid)
    requires AllLocksOk(s) && PendingOk(s) && t in s.threads && s.threads[t].pc == Running
    requires l in s.locks && s.locks[l].holder == None
    ensures s.locks[l].value == 1 && s.threads == s.threads[t := s.threads[t].(pending := None, pc := Running)]
  {
    assert LockOk(s, l);
  }

  lemma QueuedShape(s: State, s': State, t: Tid, l: Lid)
    requires SameShape(s, s') && t in s.threads && l in s.locks
    ensures s'.threads.Keys == s.threads.Keys && s'.locks.Keys == s.locks.Keys
    ensures s'.locks[l] == s.locks[l].(waiters := s'.locks[l].waiters)
    ensures multiset(s'.locks[l].waiters) == multiset(s.locks[l].waiters)
    ensures forall u :: u in s.threads ==> StillThere(s.threads[u], s'.threads[u])
  {
  }

  /** lock_release, uninterrupted: the lock is free, the caller keeps exactly the donations for other locks, and of
      the waiters with the highest priority the one that stood first is woken. */
  ghost predicate Released(s: State, s': State, t: Tid, l: Lid)
    requires t in s.threads && l in s.locks && Within(s.locks[l].waiters, s.threads.Keys)
  {
    var w := s.locks[l].waiters;
    && t in s'.threads && l in s'.locks
    && s'.locks == s.locks[l := Lock(None, 1, s'.locks[l].waiters)]
    && s'.threads[t] == s.threads[t].(donations := s'.threads[t].donations, priority := s'.threads[t].priority)
    && (forall d :: d in s'.threads[t].donations <==> d in s.threads[t].donations && d.lock != l)
    && if w == [] then s'.locks[l].waiters == [] && s'.threads == s.threads[t := s'.threads[t]]
       else exists i :: 0 <= i < |w| && Woke(s, s', t, l, w, i)
  }

  ghost predicate Woke(s: State, s': State, t: Tid, l: Lid, w: seq<Tid>, i: nat)
    requires i < |w| && Within(w, s.threads.Keys) && t in s'.threads && l in s'.locks
  {
    && (forall j :: 0 <= j < |w| ==> s.threads[w[j]].priority <= s.threads[w[i]].priority)
    && (forall j :: 0 <= j < i ==> s.threads[w[j]].priority < s.threads[w[i]].priority)
    && s'.threads == s.threads[t := s'.threads[t]][w[i] := s.threads[w[i]].(pc := Woken(l))]
    && multiset(s'.locks[l].waiters) == multiset(w) - multiset{w[i]}
  }

  lemma ReleaseMeans(s: State, t: Tid, l: Lid)
    requires Inv(s) && Closed(s) && Enabled(s, ReleaseOp(t, l))
    ensures Within(s.locks[l].waiters, s.threads.Keys) && Released(s, Release(s, t, l), t, l)
  {
    hide AllDonationsOk, WaitersComplete, AllLocksOk, Closed, Up, Kept, Recalculated, Within;
    var s1, w := Dropped(s, t, l), s.locks[l].waiters;
    ClosedWaiters(s, l);
    DroppedShape(s, t, l);
    ReleasedThread(s, t, l);
    HeldValue(s, l, t);
    NotQueued(s, t, l);
    if w == [] {
      UpFacts(s1, l);
      WakeOrderItems(s1, l);
    } else {
      var i := UpWakesHighest(s1, l);
      assert Woke(s, Up(s1, l), t, l, w, i);
    }
  }

  lemma HeldValue(s: State, l: Lid, t: Tid)
    requires AllLocksOk(s) && l in s.locks && s.locks[l].holder == Some(t)
    ensures s.locks[l].value == 0
  {
    assert LockOk(s, l);
  }

  lemma NotQueued(s: State, t: Tid, l: Lid)
    requires AllLocksOk(s) && l in s.locks && t in s.threads && s.threads[t].pc == Running
    ensures t !in s.locks[l].waiters
  {
    assert LockOk(s, l);
  }

  lemma FirstVisited(s: State, p: int, l: Lid, rank: map<Tid, nat>)
    requires Closed(s) && Ranked(s, rank) && l in s.locks && s.locks[l].holder.Some?
    requires s.locks[l].holder.value in s.threads && p >= s.threads[s.locks[l].holder.value].priority
    ensures s.locks[l].holder.value in Visited(s, p, Some(l), rank)
  {
    hide Ranked, Closed;
  }

  // ---------- exactly when a holder stays above its waiters ----------

  /** No waiter of lock L is above its holder. */
  ghost predicate DominatesAt(s: State, l: Lid)
    requires l in s.locks
  {
    s.locks[l].holder.Some? ==> WaitersAtMost(s, l, PriorityOf(s, s.locks[l].holder.value))
  }

  ghost predicate WaitersAtMost(s: State, l: Lid, p: int)
    requires l in s.locks
  {
    forall w :: w in s.locks[l].waiters ==> PriorityOf(s, w) <= p
  }

  function PriorityOf(s: State, t: Tid): int { if t in s.threads then s.threads[t].priority else 0 }

  ghost predicate Dominates(s: State) { forall l :: l in s.locks ==> DominatesAt(s, l) }

  /** The waiters of the locks T holds, but for lock L, are at most P. */
  ghost predicate HeldAtMost(s: State, t: Tid, except: Option<Lid>, p: int) {
    forall k :: k in s.locks && s.locks[k].holder == Some(t) && Some(k) != except ==> WaitersAtMost(s, k, p)
  }

  /** What keeps every holder above its waiters: read off the state before the step. */
  ghost predicate StaysAbove(s: State, op: Op)
    requires Enabled(s, op)
  {
    match op
    case AcquireOp(t, l, rank) => s.locks[l].value > 0 ==> WaitersAtMost(s, l, PriorityOf(s, t))
    case TryAcquireOp(t, l) => s.locks[l].value > 0 ==> WaitersAtMost(s, l, PriorityOf(s, t))
    case ResumeOp(t, l) =>
      if s.locks[l].value > 0 then WaitersAtMost(s, l, PriorityOf(s, t))
      else s.locks[l].holder.Some? ==> PriorityOf(s, t) <= PriorityOf(s, s.locks[l].holder.value)
    case ReleaseOp(t, l) =>
      HeldAtMost(s, t, Some(l), Effective(s.threads[t].original, Kept(s.threads[t].donations, l)))
    case SetPriorityOp(t, p) => HeldAtMost(s, t, None, Effective(p, s.threads[t].donations))
  }

  /** Each uninterrupted call leaves every holder at least as high as its waiters exactly when this holds
      before it. */
  lemma DominatesIff(s: State, op: Op)
    requires Inv(s) && Closed(s) && Enabled(s, op) && Dominates(s)
    ensures Dominates(Apply(s, op)) <==> StaysAbove(s, op)
  {
    hide Inv, Closed, Dominates, Acquire, Down, TryAcquire, Release, SetPriority, Ranked, HeldAtMost, WaitersAtMost;
    match op
    case AcquireOp(t, l, rank) =>
      LockFacts(s, l);
      if s.locks[l].value > 0 {
        AcquireFree(s, t, l, rank);
        TakeDominates(s, t, l);
      } else {
        AcquireDominates(s, t, l, rank);
      }
    case TryAcquireOp(t, l) => TryDominates(s, t, l);
    case ResumeOp(t, l) => ResumeDominates(s, t, l);
    case ReleaseOp(t, l) => ReleaseDominates(s, t, l);
    case SetPriorityOp(t, p) => SetPriorityDominates(s, t, p);
  }

  lemma LockFacts(s: State, l: Lid)
    requires Inv(s) && l in s.locks
    ensures s.locks[l].holder == None <==> s.locks[l].value > 0
    ensures s.locks[l].holder.Some? ==> s.locks[l].holder.value in s.threads
    ensures forall w :: w in s.locks[l].waiters ==> w in s.threads && s.threads[w].pc == Blocked(l) && s.threads[w].pending == Some(l)
  {
    hide NoDup, DonationsOk;
    assert LockOk(s, l);
    forall w | w in s.locks[l].waiters ensures s.threads[w].pending == Some(l) {
      assert PendingOkAt(s.locks.Keys, s.threads[w]);
    }
  }

  /** T has taken the free lock L. */
  ghost predicate Taken(s: State, s': State, t: Tid, l: Lid)
    requires l in s.locks
  {
    && s'.locks.Keys == s.locks.Keys
    && (forall k :: k in s.locks ==> s'.locks[k].waiters == s.locks[k].waiters)
    && (forall k :: k in s.locks ==> s'.locks[k].holder == if k == l then Some(t) else s.locks[k].holder)
    && (forall u :: PriorityOf(s', u) == PriorityOf(s, u))
  }

  lemma TakenDominates(s: State, s': State, t: Tid, l: Lid)
    requires Dominates(s) && l in s.locks && s.locks[l].holder == None && Taken(s, s', t, l)
    ensures Dominates(s') <==> WaitersAtMost(s, l, PriorityOf(s, t))
  {
    hide PriorityOf;
    if WaitersAtMost(s, l, PriorityOf(s, t)) {
      forall k | k in s'.locks ensures DominatesAt(s', k) { assert DominatesAt(s, k); }
    }
    if Dominates(s') { assert DominatesAt(s', l); }
  }

  lemma AcquireFree(s: State, t: Tid, l: Lid, rank: map<Tid, nat>)
    requires Closed(s) && t in s.threads && l in s.locks && Ranked(Waiting(s, t, l), rank) && s.locks[l].holder == None
    ensures Acquire(s, t, l, rank) == Down(s, t, l)
  {
    hide Closed, Ranked, Down;
  }

  lemma TakeDominates(s: State, t: Tid, l: Lid)
    requires Dominates(s) && t in s.threads && l in s.locks && s.locks[l].holder == None && s.locks[l].value > 0
    ensures Dominates(Down(s, t, l)) <==> WaitersAtMost(s, l, PriorityOf(s, t))
  {
    hide Dominates;
    TakenDominates(s, Down(s, t, l), t, l);
  }

  lemma TryDominates(s: State, t: Tid, l: Lid)
    requires Inv(s) && Dominates(s) && t in s.threads && l in s.locks
    ensures Dominates(TryAcquire(s, t, l)) <==> (s.locks[l].value > 0 ==> WaitersAtMost(s, l, PriorityOf(s, t)))
  {
    hide Inv, Dominates;
    LockFacts(s, l);
    if s.locks[l].value > 0 { TakenDominates(s, TryAcquire(s, t, l), t, l); }
  }

  lemma ResumeDominates(s: State, t: Tid, l: Lid)
    requires Inv(s) && Dominates(s) && t in s.threads && l in s.locks
    ensures Dominates(Down(s, t, l)) <==>
      if s.locks[l].value > 0 then WaitersAtMost(s, l, PriorityOf(s, t))
      else s.locks[l].holder.Some? ==> PriorityOf(s, t) <= PriorityOf(s, s.locks[l].holder.value)
  {
    hide Inv, Dominates, WaitersAtMost;
    LockFacts(s, l);
    if s.locks[l].value > 0 {
      TakeDominates(s, t, l);
    } else {
      QueuedDominates(s, Down(s, t, l), t, l);
    }
  }

  /** T has queued for lock L; priorities and holders are as before. */
  lemma QueuedDominates(s: State, s': State, t: Tid, l: Lid)
    requires Dominates(s) && t in s.threads && l in s.locks && s.locks[l].value == 0 && s' == Down(s, t, l)
    ensures Dominates(s') <==> (s.locks[l].holder.Some? ==> PriorityOf(s, t) <= PriorityOf(s, s.locks[l].holder.value))
  {
    hide Inserted;
    DownItems(s, t, l);
    if s.locks[l].holder.Some? ==> PriorityOf(s, t) <= PriorityOf(s, s.locks[l].holder.value) {
      forall k | k in s'.locks ensures DominatesAt(s', k) { assert DominatesAt(s, k); }
    }
    if Dominates(s') { assert DominatesAt(s', l); }
  }

  lemma DownItems(s: State, t: Tid, l: Lid)
    requires t in s.threads && l in s.locks && s.locks[l].value == 0
    ensures forall w :: w in Down(s, t, l).locks[l].waiters <==> w in s.locks[l].waiters || w == t
  {
    var r := Down(s, t, l).locks[l].waiters;
    forall w ensures w in r <==> w in s.locks[l].waiters || w == t {
      assert w in r <==> w in multiset(r);
      assert w in s.locks[l].waiters <==> w in multiset(s.locks[l].waiters);
    }
  }

  lemma SetPriorityDominates(s: State, t: Tid, p: int)
    requires Inv(s) && Dominates(s) && t in s.threads && s.threads[t].pc == Running
    ensures Dominates(SetPriority(s, t, p)) <==> HeldAtMost(s, t, None, Effective(p, s.threads[t].donations))
  {
    hide Inv, Effective;
    var s' := SetPriority(s, t, p);
    forall k | k in s.locks ensures t !in s.locks[k].waiters { LockFacts(s, k); }
    RunnerDominates(s, s', t, None);
  }

  /** Only the priority of T changes, T waits for nothing, and lock EXCEPT loses its holder and perhaps a
      waiter. */
  lemma RunnerDominates(s: State, s': State, t: Tid, except: Option<Lid>)
    requires Dominates(s) && s'.locks.Keys == s.locks.Keys
    requires forall k :: k in s.locks ==> t !in s.locks[k].waiters
    requires forall u :: u != t ==> PriorityOf(s', u) == PriorityOf(s, u)
    requires forall k :: k in s.locks && Some(k) != except ==> s'.locks[k].holder == s.locks[k].holder && s'.locks[k].waiters == s.locks[k].waiters
    requires except.Some? ==> except.value in s.locks && s'.locks[except.value].holder == None
    ensures Dominates(s') <==> HeldAtMost(s, t, except, PriorityOf(s', t))
  {
    hide PriorityOf;
    var p := PriorityOf(s', t);
    if HeldAtMost(s, t, except, p) {
      forall k | k in s'.locks ensures DominatesAt(s', k) {
        assert DominatesAt(s, k);
        assert Some(k) != except && s.locks[k].holder == Some(t) ==> WaitersAtMost(s, k, p);
      }
    }
    if Dominates(s') {
      forall k | k in s.locks && s.locks[k].holder == Some(t) && Some(k) != except ensures WaitersAtMost(s, k, p) {
        assert DominatesAt(s', k);
      }
    }
  }

  lemma ReleaseDominates(s: State, t: Tid, l: Lid)
    requires Inv(s) && Closed(s) && Dominates(s) && t in s.threads && l in s.locks && s.threads[t].pc == Running
    ensures Dominates(Release(s, t, l)) <==>
      HeldAtMost(s, t, Some(l), Effective(s.threads[t].original, Kept(s.threads[t].donations, l)))
  {
    hide Inv, Closed, Dominates, Effective, Kept, Recalculated, Up, WakeOrder, HeldAtMost;
    var s1, s' := Dropped(s, t, l), Release(s, t, l);
    DroppedShape(s, t, l);
    UpFacts(s1, l);
    AllDonations(s);
    ReleasedThread(s, t, l);
    forall k | k in s.locks ensures t !in s.locks[k].waiters { LockFacts(s, k); }
    RunnerDominates(s, s', t, Some(l));
  }

  lemma AllDonations(s: State)
    requires Inv(s)
    ensures AllDonationsOk(s)
  {
  }

  /** Waiting for a held lock keeps every holder above its waiters: whoever is raised by the donation walk
      has its own holder raised as well, or already higher. */
  lemma AcquireDominates(s: State, t: Tid, l: Lid, rank: map<Tid, nat>)
    requires Inv(s) && Closed(s) && Dominates(s) && t in s.threads && l in s.locks && s.threads[t].pc == Running
    requires Ranked(Waiting(s, t, l), rank) && s.locks[l].holder.Some? && s.locks[l].value == 0
    requires s.locks[l].holder != Some(t)
    ensures Dominates(Acquire(s, t, l, rank))
  {
    hide Inv, Closed, Ranked, SameShape, Walk, Visited, Down, DominatesAt;
    var s1, d, p := Waiting(s, t, l), Donate(s, t, l, rank), s.threads[t].priority;
    WaitingClosed(s, t, l);
    DonateShape(s, t, l, rank);
    DonateEffect(s, t, l, rank, s1);
    forall k | k in d.locks ensures DominatesAt(d, k) {
      SameLock(s1, d, k);
      assert DominatesAt(s, k);
      DonatedDominates(s, s1, d, t, l, k, rank);
    }
    DonatedLock(s, s1, d, t, l, rank);
    assert Acquire(s, t, l, rank) == Down(d, t, l);
    QueuedDominates(d, Down(d, t, l), t, l);
  }

  lemma SameLock(s: State, s': State, k: Lid)
    requires SameShape(s, s') && k in s'.locks
    ensures k in s.locks && s'.locks[k].holder == s.locks[k].holder && s'.locks[k].value == s.locks[k].value
    ensures forall w :: w in s'.locks[k].waiters <==> w in s.locks[k].waiters
  {
    SameItems(s.locks[k].waiters, s'.locks[k].waiters);
  }

  lemma DonatedLock(s: State, s1: State, d: State, t: Tid, l: Lid, rank: map<Tid, nat>)
    requires Inv(s) && Closed(s) && t in s.threads && l in s.locks && s1 == Waiting(s, t, l) && Closed(s1) && Ranked(s1, rank)
    requires s.locks[l].holder.Some? && s.locks[l].value == 0 && s.locks[l].holder != Some(t)
    requires d == Donate(s, t, l, rank) && SameShape(s1, d)
    ensures t in d.threads && l in d.locks && d.locks[l].value == 0 && d.locks[l].holder == s.locks[l].holder
    ensures PriorityOf(d, t) <= PriorityOf(d, s.locks[l].holder.value)
  {
    hide Inv, Closed, Ranked, Walk, Visited, Inserted, NoDup;
    LockFacts(s, l);
    SameLock(s1, d, l);
    DonateEffect(s, t, l, rank, s1);
    DonorKept(s, t, l, rank, s1);
    var h, p := s.locks[l].holder.value, s.threads[t].priority;
    if p >= s1.threads[h].priority { FirstVisited(s1, p, l, rank); }
  }

  lemma DonorKept(s: State, t: Tid, l: Lid, rank: map<Tid, nat>, s1: State)
    requires Closed(s) && t in s.threads && l in s.locks && s.locks[l].holder.Some?
    requires s1 == Waiting(s, t, l) && Closed(s1) && Ranked(s1, rank)
    ensures var d := Donate(s, t, l, rank); t in d.threads && d.threads[t] == s1.threads[t]
  {
    hide SameShape, Walk, Closed, Visited;
    var p := s.threads[t].priority;
    WalkEffect(s1, t, p, Some(l), rank);
    SameKeys(s1, Donate(s, t, l, rank));
    DonateEffect(s, t, l, rank, s1);
  }

  lemma DonatedDominates(s: State, s1: State, d: State, t: Tid, l: Lid, k: Lid, rank: map<Tid, nat>)
    requires Inv(s) && Closed(s) && t in s.threads && l in s.locks && s.threads[t].pc == Running
    requires s1 == Waiting(s, t, l) && Closed(s1) && Ranked(s1, rank) && s.locks[l].holder.Some?
    requires d == Donate(s, t, l, rank) && k in d.locks && k in s.locks && DominatesAt(s, k)
    requires d.locks[k].holder == s.locks[k].holder
    requires forall w :: w in d.locks[k].waiters <==> w in s.locks[k].waiters
    ensures DominatesAt(d, k)
  {
    hide Inv, Closed, Ranked, Walk, Visited, Donate, SameShape;
    LockFacts(s, k);
    DonateEffect(s, t, l, rank, s1);
    DonorKept(s, t, l, rank, s1);
    if s.locks[k].holder.Some? {
      var h, p := s.locks[k].holder.value, s.threads[t].priority;
      forall w | w in d.locks[k].waiters ensures PriorityOf(d, w) <= PriorityOf(d, h) {
        WaiterBelow(s, s1, d, t, l, k, rank, h, w);
      }
    }
  }

  lemma WaiterBelow(s: State, s1: State, d: State, t: Tid, l: Lid, k: Lid, rank: map<Tid, nat>, h: Tid, w: Tid)
    requires t in s.threads && l in s.locks && k in s.locks && s1 == Waiting(s, t, l) && Closed(s1) && Ranked(s1, rank)
    requires h in s.threads && s.locks[k].holder == Some(h)
    requires w in s.threads && w != t && s.threads[w].pending == Some(k) && s.threads[w].priority <= s.threads[h].priority
    requires t in d.threads && d.threads[t].priority == s.threads[t].priority
    requires var v := Visited(s1, s.threads[t].priority, Some(l), rank);
      && t !in v
      && (forall u :: u in v ==> u in d.threads && d.threads[u].priority == s.threads[t].priority)
      && (forall u :: u in s.threads && u != t && u !in v ==> u in d.threads && d.threads[u] == s.threads[u])
    ensures PriorityOf(d, w) <= PriorityOf(d, h)
  {
    hide Closed, Ranked, Visited;
    var p := s.threads[t].priority;
    var v := Visited(s1, p, Some(l), rank);
    if h in v { VisitedAtMost(s1, p, Some(l), rank, h); }
    if w in v {
      VisitedNext(s1, p, Some(l), rank, w, k, h);
    }
  }

  lemma {:induction false} VisitedAtMost(s: State, p: int, pending: Option<Lid>, rank: map<Tid, nat>, h: Tid)
    requires Closed(s) && Ranked(s, rank) && (pending.Some? ==> pending.value in s.locks)
    requires h in Visited(s, p, pending, rank)
    ensures h in s.threads && s.threads[h].priority <= p
    decreases Ahead(s, pending, rank)
  {
    var g := s.locks[pending.value].holder.value;
    if h != g {
      AheadDrops(s, s, pending, rank);
      VisitedAtMost(s, p, s.threads[g].pending, rank, h);
    }
  }

  /** The walk goes on from a visited thread to the holder of the lock it waits for, or finds it higher. */
  lemma {:induction false} VisitedNext(s: State, p: int, pending: Option<Lid>, rank: map<Tid, nat>, w: Tid, k: Lid, h: Tid)
    requires Closed(s) && Ranked(s, rank) && (pending.Some? ==> pending.value in s.locks)
    requires w in Visited(s, p, pending, rank) && w in s.threads && s.threads[w].pending == Some(k)
    requires k in s.locks && s.locks[k].holder == Some(h) && h in s.threads
    ensures h in Visited(s, p, pending, rank) || p < s.threads[h].priority
    decreases Ahead(s, pending, rank)
  {
    var g := s.locks[pending.value].holder.value;
    AheadDrops(s, s, pending, rank);
    if w != g {
      VisitedNext(s, p, s.threads[g].pending, rank, w, k, h);
    } else if p >= s.threads[h].priority {
      FirstVisited(s, p, k, rank);
    }
  }

  // ---------- starting from a fresh kernel ----------

  /** A thread with nothing but its own priority. */
  function Plain(p: int): Thread { Thread(p, p, [], None, Running) }

  /** init_thread and lock_init: nobody waits or has donations, and every lock is free. */
  ghost predicate Fresh(s: State) {
    && (forall t :: t in s.threads ==> s.threads[t] == Thread(s.threads[t].original, s.threads[t].original, [], None, Running))
    && (forall l :: l in s.locks ==> s.locks[l] == Lock(None, 1, []))
  }

  lemma FreshInv(s: State)
    requires Fresh(s)
    ensures Inv(s) && Dominates(s)
  {
    forall t | t in s.threads ensures DonationsOk(s, t) && PendingOkAt(s.locks.Keys, s.threads[t]) {}
    forall l | l in s.locks ensures LockOk(s, l) && DominatesAt(s, l) {}
  }

  /** From a fresh kernel, as long as no call is interrupted, every state satisfies the invariant. */
  lemma EveryRun(tr: seq<State>, ops: seq<Op>, i: nat)
    requires IsRun(tr, ops) && Fresh(tr[0]) && i < |tr|
    ensures Inv(tr[i])
  {
    hide Inv;
    FreshInv(tr[0]);
    RunKeepsInv(tr, ops, i);
  }

  /** A low waiter leaves no donation: thread 0 takes lock 0 at priority 10, thread 1 queues at 5, and
      thread 0 lowers itself to 1. */
  function Low0(): State { State(map[0 := Plain(10), 1 := Plain(5)], map[0 := Lock(None, 1, [])]) }
  function Low1(): State { State(map[0 := Plain(10), 1 := Plain(5)], map[0 := Lock(Some(0), 0, [])]) }
  function Low2(): State {
    State(map[0 := Plain(10), 1 := Thread(5, 5, [], Some(0), Blocked(0))], map[0 := Lock(Some(0), 0, [1])])
  }
  function Low3(): State {
    State(map[0 := Plain(1), 1 := Thread(5, 5, [], Some(0), Blocked(0))], map[0 := Lock(Some(0), 0, [1])])
  }
  function LowRank(): map<Tid, nat> { map[0 := 0, 1 := 1] }
  function LowOps(): seq<Op> { [AcquireOp(0, 0, LowRank()), AcquireOp(1, 0, LowRank()), SetPriorityOp(0, 1)] }

  lemma LowFirst()
    ensures Closed(Low0()) && Enabled(Low0(), LowOps()[0]) && Apply(Low0(), LowOps()[0]) == Low1()
  {
    assert Ranked(Waiting(Low0(), 0, 0), LowRank());
    AcquireFree(Low0(), 0, 0, LowRank());
    hide Acquire;
  }

  lemma LowRanked()
    ensures Closed(Low1()) && Ranked(Waiting(Low1(), 1, 0), LowRank()) && Closed(Waiting(Low1(), 1, 0))
  {
  }

  lemma LowDonates()
    requires Closed(Low1()) && Ranked(Waiting(Low1(), 1, 0), LowRank())
    ensures Donate(Low1(), 1, 0, LowRank()) == Waiting(Low1(), 1, 0)
  {
    hide Ranked, GiveDonation;
    LowRanked();
  }

  lemma LowSecond()
    ensures Closed(Low1()) && Enabled(Low1(), LowOps()[1]) && Apply(Low1(), LowOps()[1]) == Low2()
  {
    hide Ranked, Walk, Donate, Closed, Down, Waiting;
    LowRanked();
    LowDonates();
    LowQueues();
    assert Enabled(Low1(), LowOps()[1]);
  }

  lemma LowQueues()
    ensures Down(Waiting(Low1(), 1, 0), 1, 0) == Low2()
  {
    var w := Waiting(Low1(), 1, 0);
    assert Inserted(ThreadLess(w.threads), [], 1) == [1];
  }

  lemma LowThird()
    ensures Closed(Low2()) && Enabled(Low2(), LowOps()[2]) && Apply(Low2(), LowOps()[2]) == Low3()
  {
  }

  lemma LowFalls()
    ensures Dominates(Low2()) && !StaysAbove(Low2(), LowOps()[2]) && !Dominates(Low3())
  {
    LowThird();
    var s := Low3();
    assert 1 in s.locks[0].waiters && PriorityOf(s, 1) == 5;
    assert !DominatesAt(s, 0);
    var r := Low2();
    assert r.locks[0].holder == Some(0) && 1 in r.locks[0].waiters && PriorityOf(r, 1) == 5;
    assert !WaitersAtMost(r, 0, 1);
  }

  /** So a run from a fresh kernel reaches a holder below its waiter. */
  lemma LowWaiterCanOvertake()
    ensures IsRun([Low0(), Low1(), Low2(), Low3()], LowOps()) && Fresh(Low0())
    ensures Dominates(Low2()) && !StaysAbove(Low2(), LowOps()[2]) && !Dominates(Low3())
  {
    LowFirst();
    LowSecond();
    LowThird();
    LowFalls();
    hide Closed, Enabled, Apply, Low1, Low2, Low3, LowOps, Dominates, StaysAbove;
    assert |LowOps()| == 3 by { LowLength(); }
    var tr := [Low0(), Low1(), Low2(), Low3()];
    forall i | 0 <= i < 3 ensures Closed(tr[i]) && Enabled(tr[i], LowOps()[i]) && tr[i + 1] == Apply(tr[i], LowOps()[i]) {
      assert i == 0 || i == 1 || i == 2;
    }
  }

  lemma LowLength()
    ensures |LowOps()| == 3
  {
  }

  // ---------- the kernel's own mutable form ----------

  class Kernel {
    var threads: map<Tid, Thread>
    var locks: map<Lid, Lock>

    function View(): State
      reads this
    {
      State(threads, locks)
    }

    constructor (threads: map<Tid, Thread>, locks: map<Lid, Lock>)
      ensures View() == State(threads, locks)
    {
      this.threads, this.locks := threads, locks;
    }

    /** lock_acquire up to the point where the caller either owns the lock or is blocked. */
    method LockAcquire(cur: Tid, lock: Lid, ghost rank: map<Tid, nat>)
      requires Inv(View()) && Closed(View()) && Enabled(View(), AcquireOp(cur, lock, rank))
      modifies this
      ensures View() == Acquire(old(View()), cur, lock, rank) && Inv(View())
      ensures AcquiredOrQueued(old(View()), View(), cur, lock)
    {
      hide Inv, Closed, Ranked, GiveDonation, SameShape, Inserted, AcquiredOrQueued;
      ghost var s0 := View();
      AcquireMeans(s0, cur, lock, rank);
      AcquireKeeps(s0, cur, lock, rank) by { InvRunning(s0, AcquireOp(cur, lock, rank)); }
      var pending := None;
      if locks[lock].holder != None {
        WaitingClosed(s0, cur, lock);
        threads := threads[cur := threads[cur].(pending := Some(lock))];
        pending := Some(lock);
        DonateLoop(cur, lock, rank);
      }
      DonateShape(s0, cur, lock, rank);
      SemaDown(cur, lock, Donate(s0, cur, lock, rank));
    }

    /** The donation loop. */
    method DonateLoop(cur: Tid, lock: Lid, ghost rank: map<Tid, nat>)
      requires Closed(View()) && Ranked(View(), rank) && lock in locks && cur in threads
      requires threads[cur].pending == Some(lock)
      modifies this
      ensures View() == Walk(old(View()), cur, old(threads[cur].priority), Some(lock), rank)
    {
      hide Closed, Ranked, GiveDonation, SameShape, Below, Ahead;
      ghost var s1, p := View(), threads[cur].priority;
      var pending := Some(lock);
      RankOf(s1, rank, cur);
      while pending != None
        invariant Closed(View()) && Ranked(View(), rank) && (pending.Some? ==> pending.value in locks)
        invariant cur in threads && threads[cur].priority == p && cur in rank
        invariant Below(View(), rank, pending, rank[cur])
        invariant Walk(View(), cur, p, pending, rank) == Walk(s1, cur, p, Some(lock), rank)
        decreases Ahead(View(), pending, rank)
      {
        ghost var s := View();
        var holder := locks[pending.value].holder;
        HolderExists(s, pending.value);
        if holder == None || threads[cur].priority < threads[holder.value].priority {
          break;
        }
        var h := holder.value;
        WalkStep(s, cur, p, pending, h, rank);
        var next := threads[h].pending;
        ReceiveDonation(h, threads[cur].priority, cur, pending.value);
        pending := next;
      }
    }

    /** A woken thread's recheck, and the end of its lock_acquire if the lock is free. */
    method Resume(cur: Tid, lock: Lid)
      requires Inv(View()) && Enabled(View(), ResumeOp(cur, lock))
      modifies this
      ensures View() == Down(old(View()), cur, lock) && Inv(View())
      ensures TakesOrQueues(old(View()), View(), cur, lock)
    {
      hide Inv;
      DownMeans(View(), cur, lock);
      ResumeKeeps(View(), cur, lock);
      SemaDown(cur, lock, View());
    }

    method LockTryAcquire(cur: Tid, lock: Lid) returns (success: bool)
      requires Inv(View()) && Enabled(View(), TryAcquireOp(cur, lock))
      modifies this
      ensures View() == TryAcquire(old(View()), cur, lock) && Inv(View())
      ensures success <==> old(locks[lock].holder) == None
      ensures success ==> threads == old(threads)
                          && locks == old(locks)[lock := Lock(Some(cur), 0, old(locks[lock].waiters))]
      ensures !success ==> View() == old(View())
    {
      hide Inv;
      TryAcquireKeeps(View(), cur, lock);
      LockValue(View(), lock);
      var k := locks[lock];
      success := k.value > 0;
      if success {
        locks := locks[lock := k.(value := k.value - 1, holder := Some(cur))];
      }
    }

    method LockRelease(cur: Tid, lock: Lid)
      requires Inv(View()) && Closed(View()) && Enabled(View(), ReleaseOp(cur, lock))
      modifies this
      ensures View() == Release(old(View()), cur, lock) && Inv(View())
      ensures Within(old(locks[lock].waiters), old(threads).Keys) && Released(old(View()), View(), cur, lock)
    {
      hide Inv, Closed, Up, Kept, Recalculated, Released, Within;
      ghost var s := View();
      ReleaseMeans(s, cur, lock);
      ReleaseKeeps(s, cur, lock);
      DroppedShape(s, cur, lock);
      RemoveDonationForLock(cur, lock);
      RecalcPriority(cur);
      locks := locks[lock := locks[lock].(holder := None)];
      assert View() == Dropped(s, cur, lock);
      SemaUp(lock);
    }

    method RemoveDonationForLock(cur: Tid, lock: Lid)
      requires cur in threads
      modifies this
      ensures locks == old(locks)
      ensures threads == old(threads)[cur := old(threads[cur]).(donations := Kept(old(threads[cur].donations), lock))]
    {
      hide Kept;
      var ds := threads[cur].donations;
      var i := 0;
      assert ds[..0] == [] && ds[0..] == ds;
      while i < |ds|
        invariant 0 <= i <= |ds| && threads == old(threads) && locks == old(locks)
        invariant ds[..i] + Kept(ds[i..], lock) == Kept(old(threads[cur].donations), lock)
        decreases |ds| - i
      {
        KeptStep(ds, lock, i);
        if ds[i].lock == lock {
          ds := ds[..i] + ds[i + 1..];
        } else {
          i := i + 1;
        }
      }
      KeptNone(lock);
      assert ds[i..] == [] && ds[..i] + [] == ds;
      threads := threads[cur := threads[cur].(donations := ds)];
    }

    method RecalcPriority(cur: Tid)
      requires cur in threads
      modifies this
      ensures locks == old(locks) && threads == old(threads)[cur := Recalculated(old(threads[cur]))]
    {
      hide Sort;
      var th := threads[cur];
      th := th.(priority := th.original);
      if |th.donations| > 0 {
        DonationLessWeak(set d | d in th.donations);
        var ds := Sort(DonationLess(), th.donations, set d | d in th.donations);
        th := th.(donations := ds);
        SortKeepsLength(old(threads[cur].donations));
        if th.priority < ds[0].priority {
          th := th.(priority := ds[0].priority);
        }
      }
      threads := threads[cur := th];
    }

    method SemaUp(l: Lid)
      requires Closed(View()) && l in locks
      modifies this
      ensures View() == Up(old(View()), l)
    {
      hide SortWaiters, Up, Closed;
      UpFacts(View(), l);
      WakeOrderItems(View(), l);
      var k := locks[l];
      if |k.waiters| > 0 {
        assert Within(k.waiters, threads.Keys) by { ClosedWaiters(View(), l); }
        var w := SortWaiters(threads, k.waiters);
        k := k.(waiters := w[1..]);
        threads := threads[w[0] := threads[w[0]].(pc := Woken(l))];
      }
      locks := locks[l := k.(value := k.value + 1)];
    }

    method ThreadSetPriority(cur: Tid, newPriority: int)
      requires Inv(View()) && cur in threads
      modifies this
      ensures View() == SetPriority(old(View()), cur, newPriority) && Inv(View())
      ensures locks == old(locks) && cur in threads
      ensures threads == old(threads)[cur := old(threads[cur]).(original := newPriority, priority := threads[cur].priority)]
      ensures var p, ds := threads[cur].priority, old(threads[cur].donations);
              && p >= newPriority && (forall d :: d in ds ==> p >= d.priority)
              && (p == newPriority || exists d :: d in ds && d.priority == p)
    {
      hide Inv;
      SetPriorityKeeps(View(), cur, newPriority);
      PriorityIsMax(SetPriority(View(), cur, newPriority), cur);
      var th := threads[cur].(original := newPriority);
      if |th.donations| == 0 {
        th := th.(priority := newPriority);
      } else {
        var first := th.donations[0].priority;
        th := th.(priority := if first > newPriority then first else newPriority);
      }
      threads := threads[cur := th];
    }

    /** One donation to holder H. */
    method ReceiveDonation(h: Tid, p: int, donor: Tid, l: Lid)
      requires Closed(View()) && h in threads
      modifies this
      ensures View() == GiveDonation(old(View()), h, p, donor, l)
    {
      hide Inserted, SortWaiters;
      var th := threads[h];
      if th.priority < p {
        th := th.(priority := p);
      }
      th := th.(donations := Inserted(DonationLess(), th.donations, Donation(p, donor, l)));
      threads := threads[h := th];
      if th.pending != None {
        var k := locks[th.pending.value];
        locks := locks[th.pending.value := k.(waiters := SortWaiters(threads, k.waiters))];
      }
    }

    /** sema_down's atomic pass, with the bookkeeping lock_acquire does once it returns. */
    method SemaDown(t: Tid, l: Lid, ghost s: State)
      requires t in threads && l in locks && s == View()
      modifies this
      ensures View() == Down(s, t, l)
    {
      var k := locks[l];
      if k.value == 0 {
        locks := locks[l := k.(waiters := Inserted(ThreadLess(threads), k.waiters, t))];
        threads := threads[t := threads[t].(pc := Blocked(l))];
      } else {
        locks := locks[l := k.(value := k.value - 1, holder := Some(t))];
        threads := threads[t := threads[t].(pending := None, pc := Running)];
      }
    }
  }

  lemma LockValue(s: State, l: Lid)
    requires Inv(s) && l in s.locks
    ensures s.locks[l].value <= 1 && (s.locks[l].value > 0 <==> s.locks[l].holder == None)
  {
    assert LockOk(s, l);
  }

  lemma {:induction false} KeptStep(ds: seq<Donation>, l: Lid, i: nat)
    requires i < |ds|
    ensures ds[i].lock == l ==> ds[..i] + Kept(ds[i..], l) == (ds[..i] + ds[i + 1..])[..i] + Kept((ds[..i] + ds[i + 1..])[i..], l)
    ensures ds[i].lock != l ==> ds[..i] + Kept(ds[i..], l) == ds[..i + 1] + Kept(ds[i + 1..], l)
  {
    assert ds[i..][1..] == ds[i + 1..];
    var r := ds[..i] + ds[i + 1..];
    assert r[..i] == ds[..i] && r[i..] == ds[i + 1..];
    assert ds[..i + 1] == ds[..i] + [ds[i]];
  }

  lemma KeptNone(l: Lid)
    ensures Kept([], l) == []
  {
  }

  lemma SortKeepsLength(ds: seq<Donation>)
    requires |ds| > 0
    ensures StrictWeak(DonationLess(), set d | d in ds)
    ensures |Sort(DonationLess(), ds, set d | d in ds)| == |ds|
  {
    var dom := set d | d in ds;
    DonationLessWeak(dom);
    SortCorrect(DonationLess(), ds, dom);
    assert |multiset(Sort(DonationLess(), ds, dom))| == |multiset(ds)|;
  }

  lemma InvRunning(s: State, op: Op)
    requires Inv(s) && Enabled(s, op)
    ensures op.t in s.threads
  {
  }

  /** One turn of the donation loop: the walk continues from the next pending lock. */
  lemma WalkStep(s: State, cur: Tid, p: int, pending: Option<Lid>, h: Tid, rank: map<Tid, nat>)
    requires Closed(s) && Ranked(s, rank) && pending.Some? && pending.value in s.locks
    requires s.locks[pending.value].holder == Some(h) && h in s.threads && p >= s.threads[h].priority
    requires cur in s.threads && cur in rank && Below(s, rank, pending, rank[cur])
    ensures var s', next := GiveDonation(s, h, p, cur, pending.value), s.threads[h].pending;
            && Closed(s') && Ranked(s', rank) && (next.Some? ==> next.value in s'.locks)
            && cur in s'.threads && s'.threads[cur] == s.threads[cur]
            && Below(s', rank, next, rank[cur])
            && Ahead(s', next, rank) < Ahead(s, pending, rank)
            && Walk(s', cur, p, next, rank) == Walk(s, cur, p, pending, rank)
  {
    hide GiveDonation, SameShape;
    GiveDonationShape(s, h, p, cur, pending.value);
    var s' := GiveDonation(s, h, p, cur, pending.value);
    SameShapeRanked(s, s', rank);
    AheadDrops(s, s', pending, rank);
    GiveDonationFrame(s, h, p, cur, pending.value);
    BelowTrans(s, rank, pending, cur);
    BelowSameShape(s, s', rank, s.threads[h].pending, rank[cur]);
  }

  lemma BelowSameShape(s: State, s': State, rank: map<Tid, nat>, pending: Option<Lid>, r: nat)
    requires SameShape(s, s') && Below(s, rank, pending, r)
    ensures Below(s', rank, pending, r)
  {
  }
}
