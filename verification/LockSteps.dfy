/** lock_acquire, lock_try_acquire, lock_release and thread_set_priority at the grain at which they can be
    preempted (threads/synch.c, threads/thread.c): sema_down, sema_up and sema_try_down run with interrupts
    off and are one step each; everywhere else another thread may run between two statements. One list
    operation is one step. Nothing is assumed about who waits for whom. */
module LockSteps {
  import opened Basics
  import opened ListSpec
  import opened D = Donation

  /** The statement a thread is about to execute. */
  datatype At =
    | Idle                                   // outside these functions
    | Walking(l: Lid, next: Option<Lid>)     // lock_acquire: at the head of the donation loop
    | Raising(l: Lid, h: Tid, d: Donation)   // holder H is found and D created
    | Recording(l: Lid, h: Tid, d: Donation) // H has been raised
    | Sorting(l: Lid, h: Tid)                // D is in H's list
    | Downing(l: Lid)                        // at sema_down, or waiting inside it
    | Taken(l: Lid)                          // past sema_down
    | Settling(l: Lid)                       // holder still to be set; also lock_try_acquire
    | Removed(l: Lid)                        // lock_release: past remove_donation_for_lock
    | Lowered(l: Lid)                        // recalc_priority: priority is the original one
    | Fronted(l: Lid, p: int)                // its highest donation is read
    | Clearing(l: Lid)                       // past recalc_priority
    | Upping(l: Lid)                         // holder cleared, at sema_up
    | Changed(p: int)                        // thread_set_priority: original_priority is set
    | Assigning(p: int)                      // the donations are read, priority still to be set

  datatype Sys = Sys(s: State, at: map<Tid, At>)

  datatype Op =
    | StartAcquire(t: Tid, l: Lid)
    | StartTry(t: Tid, l: Lid)
    | StartRelease(t: Tid, l: Lid)
    | StartSet(t: Tid, p: int)
    | Next(t: Tid)

  // ---------- the steps ----------

  /** References lead somewhere. */
  ghost predicate Refs(f: Sys) {
    && f.at.Keys == f.s.threads.Keys && Closed(f.s)
    && (forall t :: t in f.at ==> AtRefs(f.s, f.at[t]))
  }

  ghost predicate AtRefs(s: State, a: At) {
    match a
    case Idle | Changed(_) | Assigning(_) => true
    case Walking(l, next) => l in s.locks && (next.Some? ==> next.value in s.locks)
    case Raising(l, h, d) => l in s.locks && h in s.threads
    case Recording(l, h, d) => l in s.locks && h in s.threads
    case Sorting(l, h) => l in s.locks && h in s.threads
    case _ => a.l in s.locks
  }

  /** What the code asserts of its callers; a thread on a waiter list cannot go on. */
  ghost predicate Enabled(f: Sys, op: Op) {
    op.t in f.at && op.t in f.s.threads &&
    match op
    case StartAcquire(t, l) => f.at[t].Idle? && l in f.s.locks && f.s.locks[l].holder != Some(t)
    case StartTry(t, l) => f.at[t].Idle? && l in f.s.locks && f.s.locks[l].holder != Some(t)
    case StartRelease(t, l) => f.at[t].Idle? && l in f.s.locks && f.s.locks[l].holder == Some(t)
    case StartSet(t, p) => f.at[t].Idle?
    case Next(t) => !f.at[t].Idle? && !f.s.threads[t].pc.Blocked?
  }

  function Goto(f: Sys, t: Tid, a: At): Sys { f.(at := f.at[t := a]) }

  function Put(f: Sys, t: Tid, th: Thread, a: At): Sys {
    Sys(f.s.(threads := f.s.threads[t := th]), f.at[t := a])
  }

  function PutLock(f: Sys, l: Lid, k: Lock, t: Tid, a: At): Sys {
    Sys(f.s.(locks := f.s.locks[l := k]), f.at[t := a])
  }

  ghost function Apply(f: Sys, op: Op): Sys
    requires Refs(f) && Enabled(f, op)
  {
    match op
    case StartAcquire(t, l) => Test(f, t, l)
    case StartTry(t, l) => if f.s.locks[l].value > 0 then Take(f, t, l, Settling(l)) else f
    case StartRelease(t, l) =>
      var th := f.s.threads[t];
      Put(f, t, th.(donations := Kept(th.donations, l)), Removed(l))
    case StartSet(t, p) => Put(f, t, f.s.threads[t].(original := p), Changed(p))
    case Next(t) => Continue(f, t)
  }

  ghost function Continue(f: Sys, t: Tid): Sys
    requires Refs(f) && t in f.at && t in f.s.threads
  {
    var th := f.s.threads[t];
    match f.at[t]
    case Idle => f
    case Walking(l, next) => Look(f, t, l, next)
    case Raising(l, h, d) => Raise(f, t, l, h, d)
    case Recording(l, h, d) => Record(f, t, l, h, d)
    case Sorting(l, h) => Resort(f, t, l, h)
    case Downing(l) => if f.s.locks[l].value == 0 then Wait(f, t, l) else Take(f, t, l, Taken(l))
    case Taken(l) => Put(f, t, th.(pending := None), Settling(l))
    case Settling(l) => PutLock(f, l, f.s.locks[l].(holder := Some(t)), t, Idle)
    case Removed(l) => Put(f, t, th.(priority := th.original), Lowered(l))
    case Lowered(l) => ReadFront(f, t, l)
    case Fronted(l, p) => Put(f, t, th.(priority := if th.priority < p then p else th.priority), Clearing(l))
    case Clearing(l) => PutLock(f, l, f.s.locks[l].(holder := None), t, Upping(l))
    case Upping(l) => Sys(Up(f.s, l), f.at[t := Idle])
    case Changed(p) => Goto(f, t, Assigning(Effective(p, th.donations)))
    case Assigning(p) => Put(f, t, th.(priority := p), Idle)
  }

  /** lock_acquire's test of the holder: a thread that finds none does not donate. */
  ghost function Test(f: Sys, t: Tid, l: Lid): Sys
    requires t in f.s.threads && l in f.s.locks
  {
    if f.s.locks[l].holder == None then Goto(f, t, Downing(l))
    else Put(f, t, f.s.threads[t].(pending := Some(l)), Walking(l, Some(l)))
  }

  /** The head of the donation loop, up to create_donation. */
  ghost function Look(f: Sys, t: Tid, l: Lid, next: Option<Lid>): Sys
    requires Closed(f.s) && t in f.s.threads && (next.Some? ==> next.value in f.s.locks)
  {
    var p := f.s.threads[t].priority;
    if next == None || f.s.locks[next.value].holder == None
       || p < f.s.threads[f.s.locks[next.value].holder.value].priority
    then Goto(f, t, Downing(l))
    else Goto(f, t, Raising(l, f.s.locks[next.value].holder.value, Donation(p, t, next.value)))
  }

  ghost function Raise(f: Sys, t: Tid, l: Lid, h: Tid, d: Donation): Sys
    requires t in f.s.threads && h in f.s.threads
  {
    var th, p := f.s.threads[h], f.s.threads[t].priority;
    Sys(f.s.(threads := f.s.threads[h := th.(priority := if th.priority < p then p else th.priority)]),
        f.at[t := Recording(l, h, d)])
  }

  ghost function Record(f: Sys, t: Tid, l: Lid, h: Tid, d: Donation): Sys
    requires h in f.s.threads
  {
    var th := f.s.threads[h];
    Sys(f.s.(threads := f.s.threads[h := th.(donations := Inserted(DonationLess(), th.donations, d))]),
        f.at[t := Sorting(l, h)])
  }

  /** H's fellow waiters are sorted again, and the loop goes on with the lock H waits for. */
  ghost function Resort(f: Sys, t: Tid, l: Lid, h: Tid): Sys
    requires Closed(f.s) && h in f.s.threads
  {
    match f.s.threads[h].pending
    case None => Goto(f, t, Walking(l, None))
    case Some(k) =>
      PutLock(f, k, f.s.locks[k].(waiters := SortWaiters(f.s.threads, f.s.locks[k].waiters)), t, Walking(l, Some(k)))
  }

  /** sema_down or sema_try_down takes the unit. */
  ghost function Take(f: Sys, t: Tid, l: Lid, a: At): Sys
    requires t in f.s.threads && l in f.s.locks && f.s.locks[l].value > 0
  {
    var k := f.s.locks[l];
    Sys(State(f.s.threads[t := f.s.threads[t].(pc := Running)], f.s.locks[l := k.(value := k.value - 1)]), f.at[t := a])
  }

  ghost function Wait(f: Sys, t: Tid, l: Lid): Sys
    requires t in f.s.threads && l in f.s.locks
  {
    var k := f.s.locks[l];
    Sys(State(f.s.threads[t := f.s.threads[t].(pc := Blocked(l))],
              f.s.locks[l := k.(waiters := Inserted(ThreadLess(f.s.threads), k.waiters, t))]), f.at)
  }

  ghost function ReadFront(f: Sys, t: Tid, l: Lid): Sys
    requires t in f.s.threads
  {
    var th := f.s.threads[t];
    if th.donations == [] then Goto(f, t, Clearing(l))
    else
      var ds := SortDonations(th.donations);
      Put(f, t, th.(donations := ds), Fronted(l, ds[0].priority))
  }

  /** list_sort of a donation list. */
  function SortDonations(ds: seq<Donation>): (r: seq<Donation>)
    ensures multiset(r) == multiset(ds) && |r| == |ds| && Descending(r)
  {
    var dom := set d | d in ds;
    DonationLessWeak(dom);
    SortCorrect(DonationLess(), ds, dom);
    var r := Sort(DonationLess(), ds, dom);
    DescendingIsSorted(r);
    SameItems(ds, r);
    r
  }

  // ---------- the invariant ----------

  /** Past sema_down but not recorded as the holder, or no longer. */
  predicate Past(a: At, l: Lid) { a == Taken(l) || a == Settling(l) || a == Upping(l) }

  /** In lock_release, up to the statement that clears the holder. */
  predicate Releasing(a: At) { a.Removed? || a.Lowered? || a.Fronted? || a.Clearing? }

  /** In lock_acquire, up to the statement that clears pending_lock. */
  predicate Acquiring(a: At) {
    a.Walking? || a.Raising? || a.Recording? || a.Sorting? || a.Downing? || a.Taken?
  }

  predicate Owns(f: Sys, t: Tid, l: Lid)
    requires l in f.s.locks
  {
    t in f.at && (f.s.locks[l].holder == Some(t) || Past(f.at[t], l))
  }

  /** A lock's semaphore is 1 while nobody owns it and 0 while one thread does. */
  ghost predicate OwnersOk(f: Sys, l: Lid)
    requires l in f.s.locks
  {
    && f.s.locks[l].value <= 1
    && (f.s.locks[l].value == 1 ==> forall t :: !Owns(f, t, l))
    && (f.s.locks[l].value == 0 ==> exists o :: Sole(f, o, l))
    && (forall t :: t in f.at && Past(f.at[t], l) ==> f.s.locks[l].holder == None)
  }

  ghost predicate Sole(f: Sys, o: Tid, l: Lid)
    requires l in f.s.locks
  {
    Owns(f, o, l) && forall t :: Owns(f, t, l) ==> t == o
  }

  /** The waiter list is exactly the threads blocked on the lock, and if units are left somebody has been
      woken for them. */
  ghost predicate WaitersOk(s: State, l: Lid)
    requires l in s.locks
  {
    var k := s.locks[l];
    && NoDup(k.waiters)
    && (forall w :: w in k.waiters ==> w in s.threads && s.threads[w].pc == Blocked(l))
    && (k.value > 0 && |k.waiters| > 0 ==> SomeoneWoken(s, l))
  }

  ghost predicate ThreadOk(s: State, a: At, t: Tid)
    requires t in s.threads
  {
    var th := s.threads[t];
    && (Releasing(a) ==> a.l in s.locks && s.locks[a.l].holder == Some(t))
    && (th.pc.Blocked? || th.pc.Woken? ==> a == Downing(th.pc.lock))
    && (th.pc.Blocked? ==> th.pc.lock in s.locks && t in s.locks[th.pc.lock].waiters)
    && (th.pending.Some? ==> Acquiring(a) && a.l == th.pending.value)
    && ReadOk(th, a)
  }

  /** What thread_set_priority has read stays a lower bound: donations only arrive. */
  ghost predicate ReadOk(th: Thread, a: At) {
    && Descending(th.donations)
    && (a.Changed? ==> a.p == th.original)
    && (a.Assigning? ==> a.p == th.original || exists i :: 0 <= i < |th.donations| && th.donations[i].priority == a.p)
    && (a.Assigning? ==> a.p >= th.original)
  }

  ghost predicate AllOwnersOk(f: Sys) { forall l :: l in f.s.locks ==> OwnersOk(f, l) }

  ghost predicate AllWaitersOk(s: State) { forall l :: l in s.locks ==> WaitersOk(s, l) }

  ghost predicate AllThreadsOk(f: Sys)
    requires Refs(f)
  {
    forall t :: t in f.at ==> ThreadOk(f.s, f.at[t], t)
  }

  ghost predicate Inv(f: Sys) {
    Refs(f) && AllOwnersOk(f) && AllWaitersOk(f.s) && AllThreadsOk(f)
  }

  // ---------- steps that leave semaphores and holders alone ----------

  /** Only T moves, not through a semaphore, and other threads only gain donations. */
  ghost predicate Quiet(f: Sys, g: Sys, t: Tid) {
    && t in f.at && t in g.at && t in g.s.threads
    && g.at.Keys == f.at.Keys && g.s.threads.Keys == f.s.threads.Keys && g.s.locks.Keys == f.s.locks.Keys
    && (forall l :: l in f.s.locks ==> SameLock(f.s.locks[l], g.s.locks[l]))
    && (forall u :: u in f.s.threads ==> g.s.threads[u].pc == f.s.threads[u].pc)
    && (forall u :: u in f.at && u != t ==> g.at[u] == f.at[u])
    && (forall u :: u in f.s.threads && u != t ==> Grew(f.s.threads[u], g.s.threads[u]))
    && (forall l :: Past(g.at[t], l) <==> Past(f.at[t], l))
    && AtRefs(g.s, g.at[t])
    && (g.s.threads[t].pending.Some? ==> g.s.threads[t].pending.value in g.s.locks)
  }

  ghost predicate SameLock(k: Lock, m: Lock) {
    m.holder == k.holder && m.value == k.value && multiset(m.waiters) == multiset(k.waiters)
  }

  ghost predicate Grew(th: Thread, uh: Thread) {
    && uh.pending == th.pending && uh.original == th.original
    && (Descending(th.donations) ==> Descending(uh.donations))
    && (forall d :: d in th.donations ==> d in uh.donations)
  }

  lemma QuietRefs(f: Sys, g: Sys, t: Tid)
    requires Refs(f) && Quiet(f, g, t)
    ensures Refs(g)
  {
    hide Past, Descending;
    forall l | l in g.s.locks ensures Within(g.s.locks[l].waiters, g.s.threads.Keys) {
      assert SameLock(f.s.locks[l], g.s.locks[l]);
      SameItems(f.s.locks[l].waiters, g.s.locks[l].waiters);
    }
    forall l | l in g.s.locks && g.s.locks[l].holder.Some? ensures g.s.locks[l].holder.value in g.s.threads {
      assert SameLock(f.s.locks[l], g.s.locks[l]);
    }
    forall u | u in g.at ensures AtRefs(g.s, g.at[u]) {
      if u != t { assert AtRefs(f.s, f.at[u]); }
    }
    forall u | u in g.s.threads && g.s.threads[u].pending.Some? ensures g.s.threads[u].pending.value in g.s.locks {
      if u != t { assert Grew(f.s.threads[u], g.s.threads[u]); }
    }
  }

  lemma QuietLocks(f: Sys, g: Sys, t: Tid)
    requires Refs(f) && AllOwnersOk(f) && AllWaitersOk(f.s) && Quiet(f, g, t)
    ensures AllOwnersOk(g) && AllWaitersOk(g.s)
  {
    hide OwnersOk, WaitersOk;
    forall l | l in g.s.locks ensures OwnersOk(g, l) && WaitersOk(g.s, l) {
      assert OwnersOk(f, l) && WaitersOk(f.s, l);
      QuietOwners(f, g, t, l);
      QuietWaiters(f, g, t, l);
    }
  }

  lemma QuietOwners(f: Sys, g: Sys, t: Tid, l: Lid)
    requires Quiet(f, g, t) && l in f.s.locks && l in g.s.locks && OwnersOk(f, l)
    ensures OwnersOk(g, l)
  {
    hide Past, AtRefs, Grew, OwnersOk;
    assert SameLock(f.s.locks[l], g.s.locks[l]);
    OwnersFrame(f, g, t, l);
  }

  /** Lock L's owners, when only T moves, and not with respect to L. */
  lemma OwnersFrame(f: Sys, g: Sys, t: Tid, l: Lid)
    requires l in f.s.locks && l in g.s.locks && OwnersOk(f, l)
    requires g.s.locks[l].holder == f.s.locks[l].holder && g.s.locks[l].value == f.s.locks[l].value
    requires t in f.at && g.at.Keys == f.at.Keys && forall u :: u in f.at && u != t ==> g.at[u] == f.at[u]
    requires Past(g.at[t], l) <==> Past(f.at[t], l)
    ensures OwnersOk(g, l)
  {
    hide Past;
    assert forall u :: Owns(g, u, l) <==> Owns(f, u, l);
    if g.s.locks[l].value == 0 {
      var o :| Sole(f, o, l);
      assert Sole(g, o, l);
    }
  }

  lemma QuietWaiters(f: Sys, g: Sys, t: Tid, l: Lid)
    requires Quiet(f, g, t) && l in f.s.locks && l in g.s.locks && WaitersOk(f.s, l)
    ensures WaitersOk(g.s, l)
  {
    hide NoDup, Past, AtRefs, Grew;
    assert SameLock(f.s.locks[l], g.s.locks[l]);
    SameItems(f.s.locks[l].waiters, g.s.locks[l].waiters);
    WokenKept(f.s, g.s, l);
  }

  lemma QuietThreads(f: Sys, g: Sys, t: Tid)
    requires Refs(f) && Refs(g) && AllThreadsOk(f) && Quiet(f, g, t) && ThreadOk(g.s, g.at[t], t)
    ensures AllThreadsOk(g)
  {
    hide Past, AtRefs, Closed, Descending;
    forall u | u in g.at ensures ThreadOk(g.s, g.at[u], u) {
      if u != t {
        assert ThreadOk(f.s, f.at[u], u) && Grew(f.s.threads[u], g.s.threads[u]);
        GrownRead(f.s.threads[u], g.s.threads[u], f.at[u]);
        SameLocks(f, g, t);
      }
    }
  }

  lemma SameLocks(f: Sys, g: Sys, t: Tid)
    requires Quiet(f, g, t)
    ensures forall l :: l in f.s.locks ==> g.s.locks[l].holder == f.s.locks[l].holder && g.s.locks[l].value == f.s.locks[l].value
    ensures forall l, u :: l in f.s.locks ==> (u in g.s.locks[l].waiters <==> u in f.s.locks[l].waiters)
  {
    forall l | l in f.s.locks ensures forall u :: u in g.s.locks[l].waiters <==> u in f.s.locks[l].waiters {
      assert SameLock(f.s.locks[l], g.s.locks[l]);
      SameItems(f.s.locks[l].waiters, g.s.locks[l].waiters);
    }
  }

  lemma GrownRead(th: Thread, uh: Thread, a: At)
    requires ReadOk(th, a) && Grew(th, uh)
    ensures ReadOk(uh, a)
  {
    if a.Assigning? && a.p != th.original {
      var i :| 0 <= i < |th.donations| && th.donations[i].priority == a.p;
      assert th.donations[i] in uh.donations;
    }
  }

  lemma QuietKeeps(f: Sys, g: Sys, t: Tid)
    requires Inv(f) && Quiet(f, g, t) && ThreadOk(g.s, g.at[t], t)
    ensures Inv(g)
  {
    hide Quiet, Refs, AllOwnersOk, AllWaitersOk, AllThreadsOk, ThreadOk;
    QuietRefs(f, g, t);
    QuietLocks(f, g, t);
    QuietThreads(f, g, t);
  }

  /** T changes its own record and moves on. */
  lemma PutKeeps(f: Sys, t: Tid, th: Thread, a: At)
    requires Inv(f) && t in f.at && t in f.s.threads && th.pc == f.s.threads[t].pc && AtRefs(f.s, a)
    requires th.pending.Some? ==> th.pending.value in f.s.locks
    requires forall l :: Past(a, l) <==> Past(f.at[t], l)
    requires ThreadOk(Put(f, t, th, a).s, a, t)
    ensures Inv(Put(f, t, th, a))
  {
    hide Inv, ThreadOk, Past, AtRefs;
    InvRefs(f);
    PutQuiet(f, t, th, a);
    QuietKeeps(f, Put(f, t, th, a), t);
  }

  lemma PutQuiet(f: Sys, t: Tid, th: Thread, a: At)
    requires t in f.at && t in f.s.threads && th.pc == f.s.threads[t].pc && AtRefs(f.s, a)
    requires th.pending.Some? ==> th.pending.value in f.s.locks
    requires forall l :: Past(a, l) <==> Past(f.at[t], l)
    ensures Quiet(f, Put(f, t, th, a), t)
  {
    hide Past, AtRefs, Descending;
    AtRefsKept(f.s, Put(f, t, th, a).s, a);
  }

  /** T changes H's record. */
  lemma OtherQuiet(f: Sys, t: Tid, h: Tid, th: Thread, a: At)
    requires t in f.at && t in f.s.threads && h in f.s.threads && AtRefs(f.s, a)
    requires th.pc == f.s.threads[h].pc && Grew(f.s.threads[h], th)
    requires th.pending.Some? ==> th.pending.value in f.s.locks
    requires f.s.threads[t].pending.Some? ==> f.s.threads[t].pending.value in f.s.locks
    requires forall l :: Past(a, l) <==> Past(f.at[t], l)
    ensures Quiet(f, Sys(f.s.(threads := f.s.threads[h := th]), f.at[t := a]), t)
  {
    hide Past, AtRefs, Descending;
    AtRefsKept(f.s, f.s.(threads := f.s.threads[h := th]), a);
  }

  /** T reorders a waiter list. */
  lemma LockQuiet(f: Sys, l: Lid, k: Lock, t: Tid, a: At)
    requires t in f.at && t in f.s.threads && l in f.s.locks && AtRefs(f.s, a) && SameLock(f.s.locks[l], k)
    requires f.s.threads[t].pending.Some? ==> f.s.threads[t].pending.value in f.s.locks
    requires forall m :: Past(a, m) <==> Past(f.at[t], m)
    ensures Quiet(f, PutLock(f, l, k, t, a), t)
  {
    hide Past, AtRefs, Descending;
    AtRefsKept(f.s, PutLock(f, l, k, t, a).s, a);
  }

  lemma InvRefs(f: Sys)
    requires Inv(f)
    ensures Refs(f) && Closed(f.s) && f.at.Keys == f.s.threads.Keys
  {
  }

  lemma AtRefsKept(s: State, s': State, a: At)
    requires AtRefs(s, a) && s'.threads.Keys == s.threads.Keys && s'.locks.Keys == s.locks.Keys
    ensures AtRefs(s', a)
  {
  }

  lemma InvAt(f: Sys, t: Tid)
    requires Inv(f) && t in f.at
    ensures t in f.s.threads && AtRefs(f.s, f.at[t]) && ThreadOk(f.s, f.at[t], t)
    ensures f.s.threads[t].pending.Some? ==> f.s.threads[t].pending.value in f.s.locks
  {
    hide ThreadOk, AtRefs;
    assert t in f.s.threads;
  }

  lemma GotoIsPut(f: Sys, t: Tid, a: At)
    requires t in f.s.threads
    ensures Goto(f, t, a) == Put(f, t, f.s.threads[t], a)
  {
    assert f.s.threads[t := f.s.threads[t]] == f.s.threads;
  }

  lemma TestKeeps(f: Sys, t: Tid, l: Lid)
    requires Inv(f) && Enabled(f, StartAcquire(t, l))
    ensures Inv(Test(f, t, l))
  {
    hide Inv, Descending;
    InvAt(f, t);
    GotoIsPut(f, t, Downing(l));
    if f.s.locks[l].holder == None {
      PutKeeps(f, t, f.s.threads[t], Downing(l));
    } else {
      PutKeeps(f, t, f.s.threads[t].(pending := Some(l)), Walking(l, Some(l)));
    }
  }

  lemma StartReleaseKeeps(f: Sys, t: Tid, l: Lid)
    requires Inv(f) && Enabled(f, StartRelease(t, l))
    ensures Inv(Apply(f, StartRelease(t, l)))
  {
    hide Inv, Descending, Kept;
    InvRefs(f);
    InvAt(f, t);
    var th := f.s.threads[t];
    KeptDescending(th.donations, l);
    PutKeeps(f, t, th.(donations := Kept(th.donations, l)), Removed(l));
  }

  lemma StartSetKeeps(f: Sys, t: Tid, p: int)
    requires Inv(f) && Enabled(f, StartSet(t, p))
    ensures Inv(Apply(f, StartSet(t, p)))
  {
    hide Inv, Descending;
    InvRefs(f);
    InvAt(f, t);
    PutKeeps(f, t, f.s.threads[t].(original := p), Changed(p));
  }

  lemma LookKeeps(f: Sys, t: Tid, l: Lid, next: Option<Lid>)
    requires Inv(f) && t in f.at && f.at[t] == Walking(l, next)
    ensures Inv(Continue(f, t))
  {
    hide Inv, Descending;
    InvRefs(f);
    InvAt(f, t);
    var g := Continue(f, t);
    GotoIsPut(f, t, g.at[t]);
    PutKeeps(f, t, f.s.threads[t], g.at[t]);
  }

  lemma RaiseKeeps(f: Sys, t: Tid, l: Lid, h: Tid, d: Donation)
    requires Inv(f) && t in f.at && f.at[t] == Raising(l, h, d)
    ensures Refs(f) && t in f.s.threads && Inv(Continue(f, t))
  {
    hide Inv, Descending, Quiet;
    InvRefs(f);
    InvAt(f, t);
    InvAt(f, h);
    var g := Continue(f, t);
    OtherQuiet(f, t, h, g.s.threads[h], Recording(l, h, d));
    QuietKeeps(f, g, t);
  }

  lemma RecordKeeps(f: Sys, t: Tid, l: Lid, h: Tid, d: Donation)
    requires Inv(f) && t in f.at && f.at[t] == Recording(l, h, d)
    ensures Refs(f) && t in f.s.threads && Inv(Continue(f, t))
  {
    hide Inv, Descending, Inserted, Quiet;
    InvRefs(f);
    InvAt(f, t);
    InvAt(f, h);
    var g, ds := Continue(f, t), f.s.threads[h].donations;
    if Descending(ds) { InsertedDescending(ds, d); }
    InsertedKeeps(ds, d);
    OtherQuiet(f, t, h, g.s.threads[h], Sorting(l, h));
    QuietKeeps(f, g, t);
  }

  lemma InsertedKeeps(ds: seq<Donation>, d: Donation)
    ensures forall e :: e in Inserted(DonationLess(), ds, d) <==> e in ds || e == d
  {
    var r := Inserted(DonationLess(), ds, d);
    forall e ensures e in r <==> e in ds || e == d {
      assert e in r <==> e in multiset(r);
      assert e in ds <==> e in multiset(ds);
    }
  }

  lemma ResortKeeps(f: Sys, t: Tid, l: Lid, h: Tid)
    requires Inv(f) && t in f.at && f.at[t] == Sorting(l, h)
    ensures Refs(f) && t in f.s.threads && Inv(Continue(f, t))
  {
    hide Inv, Descending, SortWaiters, Quiet;
    InvRefs(f);
    InvAt(f, t);
    InvAt(f, h);
    match f.s.threads[h].pending
    case None =>
      GotoIsPut(f, t, Walking(l, None));
      PutKeeps(f, t, f.s.threads[t], Walking(l, None));
    case Some(k) =>
      ReorderKeeps(f, t, l, k, SortWaiters(f.s.threads, f.s.locks[k].waiters));
  }

  lemma ReorderKeeps(f: Sys, t: Tid, l: Lid, k: Lid, w: seq<Tid>)
    requires Inv(f) && t in f.at && f.at[t].Sorting? && f.at[t].l == l && k in f.s.locks
    requires multiset(w) == multiset(f.s.locks[k].waiters)
    ensures Inv(PutLock(f, k, f.s.locks[k].(waiters := w), t, Walking(l, Some(k))))
  {
    hide Inv, Descending, Quiet;
    InvAt(f, t);
    var m := f.s.locks[k].(waiters := w);
    LockQuiet(f, k, m, t, Walking(l, Some(k)));
    QuietKeeps(f, PutLock(f, k, m, t, Walking(l, Some(k))), t);
  }

  lemma TakenKeeps(f: Sys, t: Tid, l: Lid)
    requires Inv(f) && t in f.at && f.at[t] == Taken(l)
    ensures Refs(f) && t in f.s.threads && Inv(Continue(f, t))
  {
    hide Inv, Descending;
    InvRefs(f);
    InvAt(f, t);
    PutKeeps(f, t, f.s.threads[t].(pending := None), Settling(l));
  }

  lemma RemovedKeeps(f: Sys, t: Tid, l: Lid)
    requires Inv(f) && t in f.at && f.at[t] == Removed(l)
    ensures Refs(f) && t in f.s.threads && Inv(Continue(f, t))
  {
    hide Inv, Descending;
    InvRefs(f);
    InvAt(f, t);
    PutKeeps(f, t, f.s.threads[t].(priority := f.s.threads[t].original), Lowered(l));
  }

  lemma LoweredKeeps(f: Sys, t: Tid, l: Lid)
    requires Inv(f) && t in f.at && f.at[t] == Lowered(l)
    ensures Refs(f) && t in f.s.threads && Inv(Continue(f, t))
  {
    hide Inv, Descending, SortDonations;
    InvRefs(f);
    InvAt(f, t);
    var g := Continue(f, t);
    GotoIsPut(f, t, Clearing(l));
    PutKeeps(f, t, g.s.threads[t], g.at[t]);
  }

  lemma FrontedKeeps(f: Sys, t: Tid, l: Lid, p: int)
    requires Inv(f) && t in f.at && f.at[t] == Fronted(l, p)
    ensures Refs(f) && t in f.s.threads && Inv(Continue(f, t))
  {
    hide Inv, Descending;
    InvRefs(f);
    InvAt(f, t);
    PutKeeps(f, t, Continue(f, t).s.threads[t], Clearing(l));
  }

  lemma ChangedKeeps(f: Sys, t: Tid, p: int)
    requires Inv(f) && t in f.at && f.at[t] == Changed(p)
    ensures Refs(f) && t in f.s.threads && Inv(Continue(f, t))
  {
    hide Inv, Descending;
    InvRefs(f);
    InvAt(f, t);
    var g, th := Continue(f, t), f.s.threads[t];
    GotoIsPut(f, t, g.at[t]);
    ReadFrontOk(th.original, th.donations);
    PutKeeps(f, t, th, g.at[t]);
  }

  lemma AssigningKeeps(f: Sys, t: Tid, p: int)
    requires Inv(f) && t in f.at && f.at[t] == Assigning(p)
    ensures Refs(f) && t in f.s.threads && Inv(Continue(f, t))
  {
    hide Inv, Descending;
    InvRefs(f);
    InvAt(f, t);
    PutKeeps(f, t, f.s.threads[t].(priority := p), Idle);
  }

  lemma ReadFrontOk(original: int, ds: seq<Donation>)
    ensures var p := Effective(original, ds);
            p >= original && (p == original || exists i :: 0 <= i < |ds| && ds[i].priority == p)
  {
  }

  // ---------- steps through a semaphore or a holder ----------

  /** T moves and lock L changes; other threads keep their records, but for one that may be woken. */
  ghost predicate AtLock(f: Sys, g: Sys, t: Tid, l: Lid) {
    && t in f.at && t in f.s.threads && l in f.s.locks
    && g.at.Keys == f.at.Keys && g.s.threads.Keys == f.s.threads.Keys && g.s.locks.Keys == f.s.locks.Keys
    && (forall k :: k in f.s.locks && k != l ==> g.s.locks[k] == f.s.locks[k])
    && (forall u :: u in f.at && u != t ==> g.at[u] == f.at[u])
    && (forall u :: u in f.s.threads ==> SameRecord(f.s.threads[u], g.s.threads[u]))
    && (forall k :: k != l ==> (Past(g.at[t], k) <==> Past(f.at[t], k)))
    && AtRefs(g.s, g.at[t])
  }

  ghost predicate SameRecord(th: Thread, uh: Thread) {
    uh.pending == th.pending && uh.original == th.original && uh.donations == th.donations
  }

  lemma AtLockRefs(f: Sys, g: Sys, t: Tid, l: Lid)
    requires Refs(f) && AtLock(f, g, t, l)
    requires g.s.locks[l].holder.Some? ==> g.s.locks[l].holder.value in g.s.threads
    requires Within(g.s.locks[l].waiters, g.s.threads.Keys)
    ensures Refs(g)
  {
    hide Past;
    forall u | u in g.at ensures AtRefs(g.s, g.at[u]) {
      if u != t { assert AtRefs(f.s, f.at[u]); }
    }
    forall u | u in g.s.threads && g.s.threads[u].pending.Some? ensures g.s.threads[u].pending.value in g.s.locks {
      assert SameRecord(f.s.threads[u], g.s.threads[u]);
    }
  }

  lemma AtLockOwners(f: Sys, g: Sys, t: Tid, l: Lid)
    requires AllOwnersOk(f) && AtLock(f, g, t, l) && OwnersOk(g, l)
    ensures AllOwnersOk(g)
  {
    hide OwnersOk, Past, AtRefs, SameRecord;
    forall k | k in g.s.locks ensures OwnersOk(g, k) {
      if k != l {
        assert OwnersOk(f, k);
        OwnersFrame(f, g, t, k);
      }
    }
  }

  lemma AtLockWaiters(f: Sys, g: Sys, t: Tid, l: Lid)
    requires AllWaitersOk(f.s) && AtLock(f, g, t, l) && WaitersOk(g.s, l)
    requires forall k :: k in f.s.locks && k != l ==> Undisturbed(f.s, g.s, k)
    ensures AllWaitersOk(g.s)
  {
    hide NoDup, Past, AtRefs, SameRecord;
    forall k | k in g.s.locks ensures WaitersOk(g.s, k) {
      if k != l {
        assert WaitersOk(f.s, k) && Undisturbed(f.s, g.s, k);
        if SomeoneWoken(f.s, k) {
          var u :| u in f.s.threads && f.s.threads[u].pc == Woken(k);
          assert u in g.s.threads && g.s.threads[u].pc == Woken(k);
        }
      }
    }
  }

  /** The threads blocked on lock K or woken from it stay so. */
  ghost predicate Undisturbed(s: State, s': State, k: Lid) {
    forall u :: u in s.threads && (s.threads[u].pc == Blocked(k) || s.threads[u].pc == Woken(k)) ==>
      u in s'.threads && s'.threads[u].pc == s.threads[u].pc
  }

  lemma AtLockThreads(f: Sys, g: Sys, t: Tid, l: Lid)
    requires Refs(f) && Refs(g) && AllThreadsOk(f) && AtLock(f, g, t, l) && ThreadOk(g.s, g.at[t], t)
    requires forall u :: u in f.at && u != t ==> OthersOk(f, g, u, l)
    ensures AllThreadsOk(g)
  {
    hide Past, AtRefs, Closed, Descending;
    forall u | u in g.at ensures ThreadOk(g.s, g.at[u], u) {
      if u != t {
        assert ThreadOk(f.s, f.at[u], u) && OthersOk(f, g, u, l);
        assert SameRecord(f.s.threads[u], g.s.threads[u]);
      }
    }
  }

  /** Thread U is still where it was with respect to lock L. */
  ghost predicate OthersOk(f: Sys, g: Sys, u: Tid, l: Lid)
    requires l in f.s.locks && l in g.s.locks && u in f.s.threads && u in g.s.threads && u in f.at
  {
    && (Releasing(f.at[u]) && f.at[u].l == l ==> g.s.locks[l].holder == Some(u))
    && (g.s.threads[u].pc == f.s.threads[u].pc || (f.s.threads[u].pc == Blocked(l) && g.s.threads[u].pc == Woken(l)))
    && (g.s.threads[u].pc == Blocked(l) ==> u in g.s.locks[l].waiters)
  }

  /** Lock L as one step sees it. */
  lemma InvLock(f: Sys, l: Lid)
    requires Inv(f) && l in f.s.locks
    ensures OwnersOk(f, l) && WaitersOk(f.s, l) && Within(f.s.locks[l].waiters, f.s.threads.Keys)
    ensures f.s.locks[l].holder.Some? ==> f.s.locks[l].holder.value in f.at && Owns(f, f.s.locks[l].holder.value, l)
    ensures f.s.locks[l].value == 1 ==> f.s.locks[l].holder == None
  {
    hide OwnersOk, WaitersOk;
    assert OwnersOk(f, l);
    InvHolder(f, l);
  }

  lemma InvHolder(f: Sys, l: Lid)
    requires Refs(f) && l in f.s.locks && OwnersOk(f, l)
    ensures f.s.locks[l].holder.Some? ==> f.s.locks[l].holder.value in f.at && Owns(f, f.s.locks[l].holder.value, l)
    ensures f.s.locks[l].value == 1 ==> f.s.locks[l].holder == None
  {
    if f.s.locks[l].holder.Some? {
      assert f.s.locks[l].holder.value in f.s.threads;
      assert Owns(f, f.s.locks[l].holder.value, l);
    }
  }

  lemma InvFrom(f: Sys, g: Sys, t: Tid, l: Lid)
    requires Inv(f) && AtLock(f, g, t, l)
    requires g.s.locks[l].holder.Some? ==> g.s.locks[l].holder.value in g.s.threads
    requires Within(g.s.locks[l].waiters, g.s.threads.Keys)
    requires OwnersOk(g, l) && WaitersOk(g.s, l) && ThreadOk(g.s, g.at[t], t)
    requires forall k :: k in f.s.locks && k != l ==> Undisturbed(f.s, g.s, k)
    requires forall u :: u in f.at && u in f.s.threads && u in g.s.threads && u != t ==> OthersOk(f, g, u, l)
    ensures Inv(g)
  {
    hide Refs, AllOwnersOk, AllWaitersOk, AllThreadsOk, OwnersOk, WaitersOk, ThreadOk, OthersOk, Undisturbed;
    InvRefs(f);
    AtLockRefs(f, g, t, l);
    AtLockOwners(f, g, t, l);
    AtLockWaiters(f, g, t, l);
    assert g.at.Keys == g.s.threads.Keys;
    AtLockThreads(f, g, t, l);
  }

  /** T's record and lock L after one of these steps. */
  ghost function Moved(f: Sys, t: Tid, l: Lid, pc: Pc, k: Lock, a: At): Sys
    requires t in f.s.threads
  {
    Sys(State(f.s.threads[t := f.s.threads[t].(pc := pc)], f.s.locks[l := k]), f.at[t := a])
  }

  lemma MovedAtLock(f: Sys, t: Tid, l: Lid, pc: Pc, k: Lock, a: At)
    requires t in f.at && t in f.s.threads && l in f.s.locks && AtRefs(f.s, a)
    requires forall m :: m != l ==> (Past(a, m) <==> Past(f.at[t], m))
    ensures AtLock(f, Moved(f, t, l, pc, k, a), t, l)
  {
    hide Past, AtRefs;
    AtRefsKept(f.s, Moved(f, t, l, pc, k, a).s, a);
  }

  /** The step is fine if T ends up in order and L does. */
  lemma MovedKeeps(f: Sys, t: Tid, l: Lid, pc: Pc, k: Lock, a: At)
    requires Inv(f) && t in f.at && t in f.s.threads && l in f.s.locks && AtRefs(f.s, a)
    requires forall m :: m != l ==> (Past(a, m) <==> Past(f.at[t], m))
    requires !f.s.threads[t].pc.Blocked? && (f.s.threads[t].pc.Woken? ==> f.s.threads[t].pc.lock == l)
    requires k.holder.Some? ==> k.holder.value in f.s.threads
    requires forall u :: f.s.locks[l].holder == Some(u) && u != t ==> k.holder == Some(u)
    requires forall u :: u in f.s.locks[l].waiters ==> u in k.waiters
    requires Within(k.waiters, f.s.threads.Keys)
    requires var g := Moved(f, t, l, pc, k, a); OwnersOk(g, l) && WaitersOk(g.s, l) && ThreadOk(g.s, a, t)
    ensures Inv(Moved(f, t, l, pc, k, a))
  {
    hide Inv, OwnersOk, WaitersOk, ThreadOk, Past, AtRefs, AtLock, OthersOk;
    var g := Moved(f, t, l, pc, k, a);
    MovedAtLock(f, t, l, pc, k, a);
    OthersStay(f, g, t, l);
    InvFrom(f, g, t, l);
  }

  /** Nobody but T changes, and L keeps its waiters and the holder as far as others see it. */
  lemma OthersStay(f: Sys, g: Sys, t: Tid, l: Lid)
    requires Inv(f) && l in f.s.locks && l in g.s.locks && g.s.threads.Keys == f.s.threads.Keys
    requires forall u :: u in f.s.threads && u != t ==> g.s.threads[u].pc == f.s.threads[u].pc
    requires forall u :: u in f.s.locks[l].waiters ==> u in g.s.locks[l].waiters
    requires forall u :: f.s.locks[l].holder == Some(u) && u != t ==> g.s.locks[l].holder == Some(u)
    ensures forall u :: u in f.at && u in f.s.threads && u in g.s.threads && u != t ==> OthersOk(f, g, u, l)
  {
    hide Inv;
    forall u | u in f.at && u in f.s.threads && u in g.s.threads && u != t ensures OthersOk(f, g, u, l) {
      InvAt(f, u);
    }
  }

  /** T becomes, or stays, the only owner. */
  lemma BecomesSole(f: Sys, t: Tid, l: Lid, pc: Pc, k: Lock, a: At)
    requires t in f.at && t in f.s.threads && k.value == 0
    requires k.holder == Some(t) || (k.holder == None && Past(a, l))
    requires Past(a, l) ==> k.holder == None
    requires forall u :: u in f.at && u != t ==> !Past(f.at[u], l)
    ensures OwnersOk(Moved(f, t, l, pc, k, a), l)
  {
    hide Past;
    assert Sole(Moved(f, t, l, pc, k, a), t, l);
  }

  /** While T owns the lock nobody else is past its semaphore, and while it is free nobody is. */
  lemma NoOtherPast(f: Sys, t: Tid, l: Lid)
    requires l in f.s.locks && OwnersOk(f, l) && (Owns(f, t, l) || f.s.locks[l].value == 1)
    ensures forall u :: u in f.at && u != t ==> !Past(f.at[u], l)
    ensures Owns(f, t, l) ==> f.s.locks[l].value == 0
  {
    hide Past;
    forall u | u in f.at && u != t ensures !Past(f.at[u], l) {
      var owns := Owns(f, u, l);
    }
  }

  lemma TakeKeeps(f: Sys, t: Tid, l: Lid, a: At)
    requires Inv(f) && t in f.at && t in f.s.threads && l in f.s.locks && f.s.locks[l].value > 0
    requires (f.at[t] == Downing(l) && a == Taken(l) && !f.s.threads[t].pc.Blocked?) || (f.at[t].Idle? && a == Settling(l))
    ensures Inv(Take(f, t, l, a))
  {
    hide Inv, Descending, NoDup, OwnersOk;
    InvAt(f, t);
    InvLock(f, l);
    UnitsOk(f, l);
    var k := f.s.locks[l].(value := 0);
    NoOtherPast(f, t, l);
    BecomesSole(f, t, l, Running, k, a);
    MovedKeeps(f, t, l, Running, k, a);
  }

  lemma UnitsOk(f: Sys, l: Lid)
    requires l in f.s.locks && OwnersOk(f, l)
    ensures f.s.locks[l].value <= 1
  {
  }

  lemma WaitKeeps(f: Sys, t: Tid, l: Lid)
    requires Inv(f) && t in f.at && t in f.s.threads && l in f.s.locks && f.s.locks[l].value == 0
    requires f.at[t] == Downing(l) && !f.s.threads[t].pc.Blocked?
    ensures Inv(Wait(f, t, l))
  {
    hide Inv, Refs, Closed, Inserted, OwnersOk, WaitersOk, ThreadOk;
    InvRefs(f);
    InvAt(f, t);
    InvLock(f, l);
    var k := f.s.locks[l].(waiters := Inserted(ThreadLess(f.s.threads), f.s.locks[l].waiters, t));
    var g := Moved(f, t, l, Blocked(l), k, Downing(l));
    OwnersFrame(f, g, t, l);
    assert f.at[t := Downing(l)] == f.at;
    WaitAtLock(f, t, l, k.waiters);
    MovedKeeps(f, t, l, Blocked(l), k, Downing(l));
  }

  lemma WaitAtLock(f: Sys, t: Tid, l: Lid, w: seq<Tid>)
    requires t in f.at && t in f.s.threads && l in f.s.locks && f.s.locks[l].value == 0 && f.at[t] == Downing(l)
    requires WaitersOk(f.s, l) && Within(f.s.locks[l].waiters, f.s.threads.Keys) && ThreadOk(f.s, f.at[t], t)
    requires multiset(w) == multiset(f.s.locks[l].waiters) + multiset{t} && !f.s.threads[t].pc.Blocked?
    ensures var g := Moved(f, t, l, Blocked(l), f.s.locks[l].(waiters := w), Downing(l));
            WaitersOk(g.s, l) && ThreadOk(g.s, Downing(l), t)
    ensures Within(w, f.s.threads.Keys) && forall u :: u in f.s.locks[l].waiters ==> u in w
    ensures f.s.threads[t].pc.Woken? ==> f.s.threads[t].pc.lock == l
  {
    hide NoDup, Descending;
    JoinNoDup(f.s.locks[l].waiters, w, t);
  }

  lemma SettlingKeeps(f: Sys, t: Tid, l: Lid)
    requires Inv(f) && t in f.at && f.at[t] == Settling(l)
    ensures Refs(f) && t in f.s.threads && Inv(Continue(f, t))
  {
    hide Inv, Descending, NoDup, OwnersOk;
    InvRefs(f);
    InvAt(f, t);
    InvLock(f, l);
    HolderBoth(f, t, l, Some(t), Idle);
  }

  lemma ClearingKeeps(f: Sys, t: Tid, l: Lid)
    requires Inv(f) && t in f.at && f.at[t] == Clearing(l)
    ensures Refs(f) && t in f.s.threads && Inv(Continue(f, t))
  {
    hide Inv, Descending, NoDup, OwnersOk;
    InvRefs(f);
    InvAt(f, t);
    InvLock(f, l);
    HolderBoth(f, t, l, None, Upping(l));
  }

  /** The owner sets or clears the holder. */
  lemma HolderBoth(f: Sys, t: Tid, l: Lid, h: Option<Tid>, a: At)
    requires Inv(f) && t in f.at && t in f.s.threads && l in f.s.locks && Owns(f, t, l)
    requires (f.at[t] == Settling(l) && h == Some(t) && a == Idle) || (f.at[t] == Clearing(l) && h == None && a == Upping(l))
    ensures Inv(PutLock(f, l, f.s.locks[l].(holder := h), t, a))
  {
    hide Inv, Descending, NoDup, OwnersOk;
    InvAt(f, t);
    InvLock(f, l);
    NoOtherPast(f, t, l);
    OnlyHolder(f, t, l);
    var k, pc := f.s.locks[l].(holder := h), f.s.threads[t].pc;
    BecomesSole(f, t, l, pc, k, a);
    assert f.s.threads[t := f.s.threads[t].(pc := pc)] == f.s.threads;
    MovedKeeps(f, t, l, pc, k, a);
  }

  lemma OnlyHolder(f: Sys, t: Tid, l: Lid)
    requires l in f.s.locks && OwnersOk(f, l) && Owns(f, t, l)
    ensures forall u :: u in f.at && f.s.locks[l].holder == Some(u) ==> u == t
  {
    hide Past;
    forall u | u in f.at && f.s.locks[l].holder == Some(u) ensures u == t {
      assert Owns(f, u, l);
    }
  }

  // --- sema_up ---

  lemma UppingKeeps(f: Sys, t: Tid, l: Lid)
    requires Inv(f) && t in f.at && f.at[t] == Upping(l)
    ensures Refs(f) && t in f.s.threads && Inv(Continue(f, t))
  {
    hide Inv, Descending, NoDup, OwnersOk, Up, WakeOrder, OthersOk, AtLock, ThreadOk, WaitersOk;
    InvRefs(f);
    InvAt(f, t);
    InvLock(f, l);
    var g, w := Continue(f, t), WakeOrder(f.s, l);
    UpFacts(f.s, l);
    WakeOrderItems(f.s, l);
    assert Upped(f, g, t, l, w);
    UpAtLock(f, g, t, l, w);
    UpOwners(f, g, t, l);
    UpWaiters(f, g, t, l, w);
    UpThreads(f, g, t, l, w);
    InvFrom(f, g, t, l);
  }

  /** sema_up by T: G is what UpFacts says of it, W the waiters in the order it sees them. */
  ghost predicate Upped(f: Sys, g: Sys, t: Tid, l: Lid, w: seq<Tid>) {
    && t in f.at && f.at[t] == Upping(l) && l in f.s.locks && g.at == f.at[t := Idle]
    && multiset(w) == multiset(f.s.locks[l].waiters)
    && (|w| > 0 ==> w[0] in f.s.threads)
    && g.s.threads == (if |w| == 0 then f.s.threads else f.s.threads[w[0] := f.s.threads[w[0]].(pc := Woken(l))])
    && g.s.locks == f.s.locks[l := f.s.locks[l].(waiters := if |w| > 0 then w[1..] else [], value := f.s.locks[l].value + 1)]
  }

  lemma UpAtLock(f: Sys, g: Sys, t: Tid, l: Lid, w: seq<Tid>)
    requires Upped(f, g, t, l, w) && t in f.s.threads
    ensures AtLock(f, g, t, l)
  {
  }

  lemma UpOwners(f: Sys, g: Sys, t: Tid, l: Lid)
    requires t in f.at && f.at[t] == Upping(l) && l in f.s.locks && OwnersOk(f, l) && g.at == f.at[t := Idle]
    requires l in g.s.locks && g.s.locks[l].value == f.s.locks[l].value + 1 && g.s.locks[l].holder == f.s.locks[l].holder
    ensures OwnersOk(g, l)
  {
    hide OwnersOk;
    NoOtherPast(f, t, l);
    PastHolder(f, t, l);
    assert OwnersOk(g, l) by { FreeOwners(g, l); }
  }

  lemma PastHolder(f: Sys, t: Tid, l: Lid)
    requires l in f.s.locks && OwnersOk(f, l) && t in f.at && Past(f.at[t], l)
    ensures f.s.locks[l].holder == None
  {
  }

  lemma FreeOwners(g: Sys, l: Lid)
    requires l in g.s.locks && g.s.locks[l].value == 1 && g.s.locks[l].holder == None
    requires forall u :: u in g.at ==> !Past(g.at[u], l)
    ensures OwnersOk(g, l)
  {
  }

  lemma UpWaiters(f: Sys, g: Sys, t: Tid, l: Lid, w: seq<Tid>)
    requires Inv(f) && Upped(f, g, t, l, w)
    ensures WaitersOk(g.s, l) && Within(g.s.locks[l].waiters, g.s.threads.Keys)
    ensures forall k :: k in f.s.locks && k != l ==> Undisturbed(f.s, g.s, k)
  {
    hide Inv, NoDup;
    InvLock(f, l);
    SameItems(f.s.locks[l].waiters, w);
    EmptyNoDup();
    if |w| > 0 {
      TailNoDup(w);
      assert w[0] in w;
      assert g.s.threads[w[0]].pc == Woken(l);
    }
  }

  lemma UpThreads(f: Sys, g: Sys, t: Tid, l: Lid, w: seq<Tid>)
    requires Inv(f) && Upped(f, g, t, l, w)
    ensures t in g.s.threads && ThreadOk(g.s, g.at[t], t)
    ensures forall u :: u in f.at && u in f.s.threads && u in g.s.threads && u != t ==> OthersOk(f, g, u, l)
  {
    hide Inv, NoDup, Descending;
    InvLock(f, l);
    InvAt(f, t);
    SameItems(f.s.locks[l].waiters, w);
    if |w| > 0 {
      TailNoDup(w);
      assert w[0] in w;
    }
    forall u | u in f.at && u in f.s.threads && u in g.s.threads && u != t ensures OthersOk(f, g, u, l) {
      InvAt(f, u);
    }
  }

  // ---------- every step ----------

  /** Each step keeps the invariant. */
  lemma ApplyKeeps(f: Sys, op: Op)
    requires Inv(f) && Refs(f) && Enabled(f, op)
    ensures Inv(Apply(f, op)) && Refs(Apply(f, op))
  {
    hide Inv, Refs, Test, Take, Continue;
    match op
    case StartAcquire(t, l) => TestKeeps(f, t, l); InvRefs(Apply(f, op));
    case StartTry(t, l) => if f.s.locks[l].value > 0 { TakeKeeps(f, t, l, Settling(l)); } InvRefs(Apply(f, op));
    case StartRelease(t, l) => StartReleaseKeeps(f, t, l); InvRefs(Apply(f, op));
    case StartSet(t, p) => StartSetKeeps(f, t, p); InvRefs(Apply(f, op));
    case Next(t) => ContinueKeeps(f, t); InvRefs(Apply(f, op));
  }

  lemma ContinueKeeps(f: Sys, t: Tid)
    requires Inv(f) && Refs(f) && Enabled(f, Next(t))
    ensures Inv(Continue(f, t))
  {
    hide Inv, Refs;
    InvAt(f, t);
    match f.at[t]
    case Walking(l, next) => LookKeeps(f, t, l, next);
    case Raising(l, h, d) => RaiseKeeps(f, t, l, h, d);
    case Recording(l, h, d) => RecordKeeps(f, t, l, h, d);
    case Sorting(l, h) => ResortKeeps(f, t, l, h);
    case Downing(l) => if f.s.locks[l].value == 0 { WaitKeeps(f, t, l); } else { TakeKeeps(f, t, l, Taken(l)); }
    case Taken(l) => TakenKeeps(f, t, l);
    case Settling(l) => SettlingKeeps(f, t, l);
    case Removed(l) => RemovedKeeps(f, t, l);
    case Lowered(l) => LoweredKeeps(f, t, l);
    case Fronted(l, p) => FrontedKeeps(f, t, l, p);
    case Clearing(l) => ClearingKeeps(f, t, l);
    case Upping(l) => UppingKeeps(f, t, l);
    case Changed(p) => ChangedKeeps(f, t, p);
    case Assigning(p) => AssigningKeeps(f, t, p);
  }

  // ---------- whole runs ----------

  /** Each state follows from the one before by an enabled step, of whatever thread. */
  ghost predicate IsRun(tr: seq<Sys>, ops: seq<Op>) {
    && |tr| == |ops| + 1
    && forall i :: 0 <= i < |ops| ==> Refs(tr[i]) && Enabled(tr[i], ops[i]) && tr[i + 1] == Apply(tr[i], ops[i])
  }

  /** Initialised threads and locks, and nobody inside these functions. */
  ghost predicate Start(f: Sys) {
    Fresh(f.s) && f.at.Keys == f.s.threads.Keys && forall t :: t in f.at ==> f.at[t] == Idle
  }

  lemma StartInv(f: Sys)
    requires Start(f)
    ensures Inv(f)
  {
    forall l | l in f.s.locks ensures OwnersOk(f, l) && WaitersOk(f.s, l) {
      assert forall t :: !Owns(f, t, l);
    }
  }

  /** Every state of every run satisfies the invariant, however calls are interleaved. */
  lemma {:induction false} RunKeeps(tr: seq<Sys>, ops: seq<Op>, i: nat)
    requires IsRun(tr, ops) && Start(tr[0]) && i < |tr|
    ensures Inv(tr[i]) && Refs(tr[i])
  {
    hide Inv, Refs, Enabled, Apply;
    if i == 0 {
      StartInv(tr[0]);
      InvRefs(tr[0]);
    } else {
      RunKeeps(tr, ops, i - 1);
      assert tr[i - 1 + 1] == Apply(tr[i - 1], ops[i - 1]);
      ApplyKeeps(tr[i - 1], ops[i - 1]);
    }
  }

  /** The step takes lock L's unit: a sema_down or sema_try_down that finds one. */
  ghost predicate Takes(f: Sys, op: Op, l: Lid)
    requires Enabled(f, op) && l in f.s.locks
  {
    f.s.locks[l].value > 0 && ((op.StartTry? && op.l == l) || (op.Next? && f.at[op.t] == Downing(l)))
  }

  /** The step is lock L's sema_up. */
  ghost predicate Gives(f: Sys, op: Op, l: Lid)
    requires Enabled(f, op)
  {
    op.Next? && f.at[op.t] == Upping(l)
  }

  /** The threads past lock L's sema_down (or sema_try_down) and not past its sema_up after N steps,
      from the history alone. */
  ghost function Inside(tr: seq<Sys>, ops: seq<Op>, l: Lid, n: nat): set<Tid>
    requires IsRun(tr, ops) && n <= |ops| && forall i :: 0 <= i < |tr| ==> l in tr[i].s.locks
  {
    if n == 0 then {}
    else
      var before := Inside(tr, ops, l, n - 1);
      if Gives(tr[n - 1], ops[n - 1], l) then before - {ops[n - 1].t}
      else if Takes(tr[n - 1], ops[n - 1], l) then before + {ops[n - 1].t}
      else before
  }

  /** Who owns lock L, read off the state. */
  ghost function Owners(f: Sys, l: Lid): set<Tid>
    requires l in f.s.locks
  {
    set t | t in f.at && Owns(f, t, l)
  }

  /** What a step does to T's position, the holder and the semaphore of lock L. */
  ghost predicate Shape(f: Sys, g: Sys, op: Op, l: Lid)
    requires Enabled(f, op) && l in f.s.locks
  {
    && g.s.locks.Keys == f.s.locks.Keys && g.at.Keys == f.at.Keys
    && (forall u :: u in f.at && u != op.t ==> g.at[u] == f.at[u])
    && g.s.locks[l].holder == HolderNext(f, op, l)
    && g.s.locks[l].value == f.s.locks[l].value + (if Gives(f, op, l) then 1 else 0) - (if Takes(f, op, l) then 1 else 0)
    && (Past(g.at[op.t], l) <==> PastNext(f, op, l))
  }

  ghost predicate PastNext(f: Sys, op: Op, l: Lid)
    requires Enabled(f, op) && l in f.s.locks
  {
    Takes(f, op, l) || (op.Next? && (f.at[op.t] == Taken(l) || f.at[op.t] == Clearing(l)))
  }

  /** The holder of lock L after the step. */
  ghost function HolderNext(f: Sys, op: Op, l: Lid): Option<Tid>
    requires Enabled(f, op) && l in f.s.locks
  {
    if op.Next? && f.at[op.t] == Settling(l) then Some(op.t)
    else if op.Next? && f.at[op.t] == Clearing(l) then None
    else f.s.locks[l].holder
  }

  lemma StepShape(f: Sys, op: Op, l: Lid)
    requires Refs(f) && Enabled(f, op) && l in f.s.locks
    ensures Shape(f, Apply(f, op), op, l)
  {
    hide Closed, Kept, Continue, Shape;
    if op.Next? {
      if Acquiring(f.at[op.t]) { AcquireShape(f, op.t, l); } else { OtherShape(f, op.t, l); }
    } else {
      StartShape(f, op, l);
    }
  }

  lemma StartShape(f: Sys, op: Op, l: Lid)
    requires Refs(f) && Enabled(f, op) && l in f.s.locks && !op.Next?
    ensures Shape(f, Apply(f, op), op, l)
  {
    hide Closed, Kept;
  }

  lemma AcquireShape(f: Sys, t: Tid, l: Lid)
    requires Refs(f) && Enabled(f, Next(t)) && l in f.s.locks && Acquiring(f.at[t])
    ensures Shape(f, Continue(f, t), Next(t), l)
  {
    hide Closed, Inserted, Resort;
    if f.at[t].Sorting? { ResortShape(f, t, f.at[t].l, f.at[t].h, l); }
  }

  lemma OtherShape(f: Sys, t: Tid, l: Lid)
    requires Refs(f) && Enabled(f, Next(t)) && l in f.s.locks && !Acquiring(f.at[t])
    ensures Shape(f, Continue(f, t), Next(t), l)
  {
    hide Closed, SortDonations, Up, WakeOrder;
    if f.at[t].Upping? { UpFacts(f.s, f.at[t].l); }
  }

  lemma ResortShape(f: Sys, t: Tid, k: Lid, h: Tid, l: Lid)
    requires Closed(f.s) && h in f.s.threads && l in f.s.locks
    ensures var g := Resort(f, t, k, h);
            && g.s.locks.Keys == f.s.locks.Keys && g.s.locks[l].holder == f.s.locks[l].holder
            && g.s.locks[l].value == f.s.locks[l].value && g.at == f.at[t := g.at[t]] && g.at[t].Walking?
  {
    hide SortWaiters;
  }

  /** How one step changes the owners of a lock. */
  lemma OwnersAfter(f: Sys, op: Op, l: Lid)
    requires Inv(f) && Refs(f) && Enabled(f, op) && l in f.s.locks
    ensures l in Apply(f, op).s.locks
    ensures Owners(Apply(f, op), l) ==
      if Gives(f, op, l) then Owners(f, l) - {op.t}
      else if Takes(f, op, l) then Owners(f, l) + {op.t}
      else Owners(f, l)
  {
    hide Inv, Refs, Apply, OwnersOk;
    StepShape(f, op, l);
    InvLock(f, l);
    InvAt(f, op.t);
    if Owns(f, op.t, l) { OnlyHolder(f, op.t, l); }
    if Past(f.at[op.t], l) { PastHolder(f, op.t, l); }
  }

  lemma {:induction false} LocksStay(tr: seq<Sys>, ops: seq<Op>, l: Lid, n: nat)
    requires IsRun(tr, ops) && n < |tr| && l in tr[0].s.locks
    ensures l in tr[n].s.locks
  {
    hide Refs, Enabled, Apply;
    if n > 0 {
      LocksStay(tr, ops, l, n - 1);
      assert tr[n - 1 + 1] == Apply(tr[n - 1], ops[n - 1]);
      StepShape(tr[n - 1], ops[n - 1], l);
    }
  }

  lemma {:induction false} InsideIsOwners(tr: seq<Sys>, ops: seq<Op>, l: Lid, n: nat)
    requires IsRun(tr, ops) && Start(tr[0]) && n <= |ops| && forall i :: 0 <= i < |tr| ==> l in tr[i].s.locks
    ensures Inside(tr, ops, l, n) == Owners(tr[n], l)
  {
    hide Inv, Refs, Enabled, Apply, Gives, Takes;
    if n == 0 {
      NobodyAtStart(tr[0], l);
    } else {
      InsideIsOwners(tr, ops, l, n - 1);
      RunKeeps(tr, ops, n - 1);
      assert tr[n - 1 + 1] == Apply(tr[n - 1], ops[n - 1]);
      OwnersAfter(tr[n - 1], ops[n - 1], l);
    }
  }

  lemma NobodyAtStart(f: Sys, l: Lid)
    requires Start(f) && l in f.s.locks
    ensures Owners(f, l) == {}
  {
  }

  /** Mutual exclusion, however calls are interleaved: the threads past lock L's sema_down and not past its
      sema_up, counted from the history, and its semaphore add up to 1. The holder field may lag behind,
      but only by being null, while that thread is between the semaphore and the assignment. */
  lemma AtMostOneInside(tr: seq<Sys>, ops: seq<Op>, l: Lid, n: nat)
    requires IsRun(tr, ops) && Start(tr[0]) && n <= |ops| && l in tr[0].s.locks
    ensures forall i :: 0 <= i < |tr| ==> l in tr[i].s.locks
    ensures var k, inside := tr[n].s.locks[l], Inside(tr, ops, l, n);
            && |inside| <= 1 && |inside| + k.value == 1
            && (k.holder.Some? ==> inside == {k.holder.value})
            && (forall t :: t in inside && k.holder == None ==> t in tr[n].at && Past(tr[n].at[t], l))
  {
    hide Inv, Refs, Enabled, Apply;
    forall i | 0 <= i < |tr| ensures l in tr[i].s.locks { LocksStay(tr, ops, l, i); }
    RunKeeps(tr, ops, n);
    InsideIsOwners(tr, ops, l, n);
    InvLock(tr[n], l);
    OwnersCount(tr[n], l);
  }

  lemma OwnersCount(f: Sys, l: Lid)
    requires l in f.s.locks && OwnersOk(f, l)
    ensures |Owners(f, l)| + f.s.locks[l].value == 1
    ensures forall t :: t in f.at && Owns(f, t, l) ==> Owners(f, l) == {t}
  {
    if f.s.locks[l].value == 0 {
      var o: Tid :| Sole(f, o, l);
      assert Owners(f, l) == {o};
    } else {
      assert Owners(f, l) == {};
    }
  }

  /** No wakeup is lost either: while units are left and somebody waits, some woken thread can go on. */
  lemma NoLostWakeup(tr: seq<Sys>, ops: seq<Op>, l: Lid, n: nat)
    requires IsRun(tr, ops) && Start(tr[0]) && n < |tr| && l in tr[n].s.locks
    requires tr[n].s.locks[l].value > 0 && tr[n].s.locks[l].waiters != []
    ensures exists t :: t in tr[n].s.threads && tr[n].s.threads[t].pc == Woken(l) && Enabled(tr[n], Next(t))
  {
    hide Inv, Refs, Apply, OwnersOk;
    RunKeeps(tr, ops, n);
    var f := tr[n];
    InvRefs(f);
    InvLock(f, l);
    var t :| t in f.s.threads && f.s.threads[t].pc == Woken(l);
    InvAt(f, t);
    assert Enabled(f, Next(t));
  }

  // ---------- what preemption does to donations ----------

  /** Every donation names a lock that the thread who has it holds. */
  ghost predicate NamesHeld(s: State) {
    forall t :: t in s.threads ==> HoldsAll(s.locks, t, s.threads[t].donations)
  }

  /** Exactly when a step keeps it so: a donation must not be recorded for somebody who no longer holds the
      lock, and no donation for the lock may have come since remove_donation_for_lock. */
  ghost predicate KeepsNames(f: Sys, op: Op)
    requires Enabled(f, op)
  {
    match op
    case Next(t) => (
      match f.at[t]
      case Recording(_, h, d) => d.lock in f.s.locks && f.s.locks[d.lock].holder == Some(h)
      case Clearing(l) => NoneNames(f.s.threads[t].donations, l)
      case _ => true)
    case _ => true
  }

  ghost predicate NoneNames(ds: seq<Donation>, l: Lid) { forall i :: 0 <= i < |ds| ==> ds[i].lock != l }

  lemma NamesHeldIff(f: Sys, op: Op)
    requires Inv(f) && Refs(f) && Enabled(f, op) && NamesHeld(f.s)
    ensures NamesHeld(Apply(f, op).s) <==> KeepsNames(f, op)
  {
    hide Inv, Refs, Continue, NamesHeld, KeepsNames;
    if op.Next? && f.at[op.t].Recording? {
      RecordNames(f, op.t);
    } else if op.Next? && f.at[op.t].Settling? {
      SettleNames(f, op.t);
      NotTheseTwo(f, op);
    } else if op.Next? && f.at[op.t].Clearing? {
      ClearNames(f, op.t);
    } else {
      NotTheseTwo(f, op);
      OthersKeepNames(f, op);
    }
  }

  lemma NotTheseTwo(f: Sys, op: Op)
    requires Enabled(f, op) && (op.Next? ==> !f.at[op.t].Recording? && !f.at[op.t].Clearing?)
    ensures KeepsNames(f, op)
  {
  }

  /** Donations only go away and holders stay. */
  lemma FewerNames(s: State, s': State)
    requires NamesHeld(s) && s'.threads.Keys == s.threads.Keys && s'.locks.Keys == s.locks.Keys
    requires forall l :: l in s.locks ==> s'.locks[l].holder == s.locks[l].holder
    requires forall u, d :: u in s.threads && d in s'.threads[u].donations ==> d in s.threads[u].donations
    ensures NamesHeld(s')
  {
    forall u | u in s'.threads ensures HoldsAll(s'.locks, u, s'.threads[u].donations) {
      var ds := s'.threads[u].donations;
      forall i | 0 <= i < |ds| ensures ds[i].lock in s'.locks && s'.locks[ds[i].lock].holder == Some(u) {
        assert ds[i] in ds;
        assert HoldsAll(s.locks, u, s.threads[u].donations);
      }
    }
  }

  lemma OthersKeepNames(f: Sys, op: Op)
    requires Refs(f) && Enabled(f, op) && NamesHeld(f.s)
    requires op.Next? ==> !f.at[op.t].Recording? && !f.at[op.t].Settling? && !f.at[op.t].Clearing?
    ensures NamesHeld(Apply(f, op).s)
  {
    hide Refs, NamesHeld, Apply;
    var g := Apply(f, op);
    DonationsShape(f, op);
    forall l | l in f.s.locks ensures l in g.s.locks && g.s.locks[l].holder == f.s.locks[l].holder { StepShape(f, op, l); }
    assert g.s.locks.Keys == f.s.locks.Keys by { LockKeys(f, op); }
    FewerNames(f.s, g.s);
  }

  lemma LockKeys(f: Sys, op: Op)
    requires Refs(f) && Enabled(f, op)
    ensures Apply(f, op).s.locks.Keys == f.s.locks.Keys
  {
    hide Kept, SortDonations, SortWaiters, Inserted, Up, WakeOrder;
    if op.Next? && f.at[op.t].Upping? { UpFacts(f.s, f.at[op.t].l); }
  }

  /** Steps other than the recording of a donation add none. */
  lemma DonationsShape(f: Sys, op: Op)
    requires Refs(f) && Enabled(f, op) && (op.Next? ==> !f.at[op.t].Recording?)
    ensures Apply(f, op).s.threads.Keys == f.s.threads.Keys
    ensures forall u, d :: u in f.s.threads && d in Apply(f, op).s.threads[u].donations ==> d in f.s.threads[u].donations
  {
    hide Closed, SortWaiters, Up, WakeOrder, Kept, SortDonations;
    if op.Next? && f.at[op.t].Upping? { UpFacts(f.s, f.at[op.t].l); }
    if op.Next? && f.at[op.t].Lowered? {
      SameItems(f.s.threads[op.t].donations, SortDonations(f.s.threads[op.t].donations));
    }
  }

  lemma RecordNames(f: Sys, t: Tid)
    requires Inv(f) && Refs(f) && Enabled(f, Next(t)) && f.at[t].Recording? && NamesHeld(f.s)
    ensures NamesHeld(Continue(f, t).s) <==> KeepsNames(f, Next(t))
  {
    hide Inv, Refs, Inserted;
    InvAt(f, t);
    var h, d, g := f.at[t].h, f.at[t].d, Continue(f, t);
    var ds, es := f.s.threads[h].donations, g.s.threads[h].donations;
    InsertedKeeps(ds, d);
    assert HoldsAll(f.s.locks, h, ds);
    if KeepsNames(f, Next(t)) {
      forall i | 0 <= i < |es| ensures es[i].lock in f.s.locks && f.s.locks[es[i].lock].holder == Some(h) {
        assert es[i] in es;
      }
      forall u | u in g.s.threads ensures HoldsAll(g.s.locks, u, g.s.threads[u].donations) {
        assert HoldsAll(f.s.locks, u, f.s.threads[u].donations);
      }
    }
    if NamesHeld(g.s) {
      assert HoldsAll(g.s.locks, h, es) && d in es;
    }
  }

  lemma SettleNames(f: Sys, t: Tid)
    requires Inv(f) && Refs(f) && Enabled(f, Next(t)) && f.at[t].Settling? && NamesHeld(f.s)
    ensures NamesHeld(Continue(f, t).s)
  {
    hide Inv, Refs, OwnersOk;
    InvAt(f, t);
    var l, g := f.at[t].l, Continue(f, t);
    InvLock(f, l);
    PastHolder(f, t, l);
    forall u | u in g.s.threads ensures HoldsAll(g.s.locks, u, g.s.threads[u].donations) {
      assert HoldsAll(f.s.locks, u, f.s.threads[u].donations);
    }
  }

  lemma ClearNames(f: Sys, t: Tid)
    requires Inv(f) && Refs(f) && Enabled(f, Next(t)) && f.at[t].Clearing? && NamesHeld(f.s)
    ensures NamesHeld(Continue(f, t).s) <==> KeepsNames(f, Next(t))
  {
    hide Inv, Refs;
    InvAt(f, t);
    var l, g, ds := f.at[t].l, Continue(f, t), f.s.threads[t].donations;
    if NamesHeld(g.s) {
      assert HoldsAll(g.s.locks, t, ds);
      forall i | 0 <= i < |ds| ensures ds[i].lock != l { assert g.s.locks[ds[i].lock].holder == Some(t); }
    }
    if NoneNames(ds, l) {
      forall u | u in g.s.threads ensures HoldsAll(g.s.locks, u, g.s.threads[u].donations) {
        assert HoldsAll(f.s.locks, u, f.s.threads[u].donations);
      }
    }
  }

  /** So over a whole run every donation names a held lock throughout exactly if every step passes. */
  lemma {:induction false} RunNamesHeldIff(tr: seq<Sys>, ops: seq<Op>, n: nat)
    requires IsRun(tr, ops) && Start(tr[0]) && n <= |ops|
    ensures (forall i :: 0 <= i <= n ==> NamesHeld(tr[i].s)) <==> (forall i :: 0 <= i < n ==> KeepsNames(tr[i], ops[i]))
  {
    hide Inv, Refs, Enabled, Apply, KeepsNames;
    if n == 0 {
      assert NamesHeld(tr[0].s);
    } else {
      hide NamesHeld, Start;
      RunNamesHeldIff(tr, ops, n - 1);
      RunKeeps(tr, ops, n - 1);
      assert Enabled(tr[n - 1], ops[n - 1]) && tr[n - 1 + 1] == Apply(tr[n - 1], ops[n - 1]);
      if NamesHeld(tr[n - 1].s) { NamesHeldIff(tr[n - 1], ops[n - 1]); }
    }
  }

  /** The clearing step of lock_release: its thread's donations are in order afterwards exactly if none of
      them names the lock. */
  lemma ClearIff(f: Sys, t: Tid, l: Lid)
    requires Inv(f) && Refs(f) && t in f.at && t in f.s.threads && f.at[t] == Clearing(l) && DonationsOk(f.s, t)
    ensures t in Continue(f, t).s.threads
    ensures DonationsOk(Continue(f, t).s, t) <==> NoneNames(f.s.threads[t].donations, l)
  {
    hide Inv, Descending;
    InvAt(f, t);
    var g, ds := Continue(f, t), f.s.threads[t].donations;
    if DonationsOk(g.s, t) {
      forall i | 0 <= i < |ds| ensures ds[i].lock != l { assert g.s.locks[ds[i].lock].holder == Some(t); }
    }
  }

  /** The last step of thread_set_priority: the priority is then the larger of the thread's own and the
      highest donated one exactly if no donation is above what was read before. */
  lemma AssignIff(f: Sys, t: Tid, p: int)
    requires Inv(f) && Refs(f) && t in f.at && t in f.s.threads && f.at[t] == Assigning(p)
    ensures t in Continue(f, t).s.threads
    ensures var th := Continue(f, t).s.threads[t];
            th.priority == Effective(th.original, th.donations) <==>
            forall i :: 0 <= i < |th.donations| ==> th.donations[i].priority <= p
  {
    hide Inv;
    InvAt(f, t);
    var th := f.s.threads[t];
    assert ReadOk(th, f.at[t]) && Descending(th.donations);
  }

  // ---------- what preemption does to the order of holders and waiters ----------

  /** Whoever holds lock K, if not H itself, is at least P. */
  ghost predicate HolderAtLeast(s: State, k: Lid, h: Tid, p: int) {
    k in s.locks && s.locks[k].holder.Some? && s.locks[k].holder != Some(h) ==> p <= PriorityOf(s, s.locks[k].holder.value)
  }

  /** Exactly when a step leaves no waiter above the holder of its lock, read off the state before it. A
      thread that joins the waiters, donor or not, must not be above the holder recorded by then; one that
      becomes the holder must not be below those already waiting; raising a thread that itself waits needs
      a holder as high; and a priority that is reset or set must cover the waiters of all locks held. */
  ghost predicate StaysAbove(f: Sys, op: Op)
    requires Enabled(f, op)
  {
    match op
    case Next(t) => (
      match f.at[t]
      case Raising(_, h, _) =>
        h in f.s.threads && f.s.threads[h].pc.Blocked? && f.s.threads[h].priority < f.s.threads[t].priority ==>
          HolderAtLeast(f.s, f.s.threads[h].pc.lock, h, f.s.threads[t].priority)
      case Downing(l) => l in f.s.locks && f.s.locks[l].value == 0 ==> HolderAtLeast(f.s, l, t, f.s.threads[t].priority)
      case Settling(l) => l in f.s.locks ==> WaitersAtMost(f.s, l, f.s.threads[t].priority)
      case Removed(_) => HeldAtMost(f.s, t, None, f.s.threads[t].original)
      case Assigning(p) => HeldAtMost(f.s, t, None, p)
      case _ => true)
    case _ => true
  }

  /** Holders, waiters and priorities are the same. */
  lemma OrderSame(s: State, s': State)
    requires Dominates(s) && s'.locks.Keys == s.locks.Keys
    requires forall l :: l in s.locks ==> s'.locks[l].holder == s.locks[l].holder || s'.locks[l].holder == None
    requires forall l, w :: l in s.locks && w in s'.locks[l].waiters ==> w in s.locks[l].waiters
    requires forall u :: PriorityOf(s', u) == PriorityOf(s, u)
    ensures Dominates(s')
  {
    forall l | l in s'.locks ensures DominatesAt(s', l) { assert DominatesAt(s, l); }
  }

  /** Only the priority of T, who waits for nothing, changes. */
  lemma OwnPriority(f: Sys, s': State, t: Tid)
    requires Inv(f) && t in f.s.threads && !f.s.threads[t].pc.Blocked? && Dominates(f.s)
    requires s'.locks == f.s.locks && forall u :: u != t ==> PriorityOf(s', u) == PriorityOf(f.s, u)
    ensures Dominates(s') <==> HeldAtMost(f.s, t, None, PriorityOf(s', t))
  {
    hide Inv;
    forall k | k in f.s.locks ensures t !in f.s.locks[k].waiters { InvLock(f, k); }
    RunnerDominates(f.s, s', t, None);
  }

  lemma RaiseDominates(f: Sys, t: Tid)
    requires Inv(f) && Refs(f) && Enabled(f, Next(t)) && f.at[t].Raising? && Dominates(f.s)
    ensures Dominates(Continue(f, t).s) <==> StaysAbove(f, Next(t))
  {
    hide Inv, ThreadOk;
    InvAt(f, t);
    var h, g := f.at[t].h, Continue(f, t);
    InvAt(f, h);
    forall k | k in f.s.locks ensures h in f.s.locks[k].waiters <==> f.s.threads[h].pc == Blocked(k) { BlockedAt(f, h, k); }
    if StaysAbove(f, Next(t)) {
      forall k | k in g.s.locks ensures DominatesAt(g.s, k) { assert DominatesAt(f.s, k); }
    }
    if Dominates(g.s) && f.s.threads[h].pc.Blocked? && f.s.threads[h].pc.lock in f.s.locks {
      assert DominatesAt(g.s, f.s.threads[h].pc.lock);
    }
  }

  lemma BlockedAt(f: Sys, h: Tid, k: Lid)
    requires Inv(f) && k in f.s.locks && h in f.at && h in f.s.threads
    ensures h in f.s.locks[k].waiters <==> f.s.threads[h].pc == Blocked(k)
  {
    hide Inv, OwnersOk;
    InvLock(f, k);
    InvAt(f, h);
  }

  lemma DownDominates(f: Sys, t: Tid)
    requires Inv(f) && Refs(f) && Enabled(f, Next(t)) && f.at[t].Downing? && Dominates(f.s)
    ensures Dominates(Continue(f, t).s) <==> StaysAbove(f, Next(t))
  {
    hide Inv, Inserted, OwnersOk, WaitersOk, Dominates;
    InvAt(f, t);
    var l, g := f.at[t].l, Continue(f, t);
    InvLock(f, l);
    if f.s.locks[l].value == 0 {
      WaitDominates(f, t, l);
    } else {
      OrderSame(f.s, g.s);
    }
  }

  lemma WaitDominates(f: Sys, t: Tid, l: Lid)
    requires t in f.s.threads && l in f.s.locks && f.s.locks[l].value == 0 && Dominates(f.s)
    ensures Dominates(Wait(f, t, l).s) <==> HolderAtLeast(f.s, l, t, f.s.threads[t].priority)
  {
    hide Inserted;
    var g := Wait(f, t, l);
    DownItems(f.s, t, l);
    assert forall u :: PriorityOf(g.s, u) == PriorityOf(f.s, u);
    assert g.s.locks[l].waiters == Down(f.s, t, l).locks[l].waiters;
    if Dominates(g.s) { assert DominatesAt(g.s, l) && t in g.s.locks[l].waiters; }
    if HolderAtLeast(f.s, l, t, f.s.threads[t].priority) {
      forall k | k in g.s.locks ensures DominatesAt(g.s, k) { assert DominatesAt(f.s, k); }
    }
  }

  lemma SettleDominates(f: Sys, t: Tid)
    requires Inv(f) && Refs(f) && Enabled(f, Next(t)) && f.at[t].Settling? && Dominates(f.s)
    ensures Dominates(Continue(f, t).s) <==> StaysAbove(f, Next(t))
  {
    hide Inv;
    InvAt(f, t);
    var l, g := f.at[t].l, Continue(f, t);
    if Dominates(g.s) { assert DominatesAt(g.s, l); }
    if StaysAbove(f, Next(t)) {
      forall k | k in g.s.locks ensures DominatesAt(g.s, k) { assert DominatesAt(f.s, k); }
    }
  }

  /** recalc_priority and thread_set_priority. */
  lemma PriorityDominates(f: Sys, t: Tid)
    requires Inv(f) && Refs(f) && Enabled(f, Next(t)) && Dominates(f.s)
    requires f.at[t].Removed? || f.at[t].Fronted? || f.at[t].Assigning?
    ensures Dominates(Continue(f, t).s) <==> StaysAbove(f, Next(t))
  {
    hide Inv, Refs, Dominates, WaitersAtMost;
    var g := Continue(f, t);
    OwnPriority(f, g.s, t);
    if f.at[t].Fronted? { HeldStays(f.s, t, PriorityOf(g.s, t)); }
  }

  lemma HeldStays(s: State, t: Tid, p: int)
    requires Dominates(s) && PriorityOf(s, t) <= p
    ensures HeldAtMost(s, t, None, p)
  {
    forall k | k in s.locks && s.locks[k].holder == Some(t) ensures WaitersAtMost(s, k, p) { assert DominatesAt(s, k); }
  }

  /** The other steps change neither priorities nor who waits, or take a holder or a waiter away. */
  predicate Orderly(f: Sys, op: Op)
    requires op.t in f.at
  {
    op.Next? ==> var a := f.at[op.t];
      !a.Raising? && !a.Downing? && !a.Settling? && !a.Removed? && !a.Fronted? && !a.Assigning?
  }

  lemma OrderlyDominates(f: Sys, op: Op)
    requires Inv(f) && Refs(f) && Enabled(f, op) && Orderly(f, op) && Dominates(f.s)
    ensures Dominates(Apply(f, op).s)
  {
    hide Inv, Refs, Dominates, Apply;
    OrderlyShape(f, op);
    OrderSame(f.s, Apply(f, op).s);
  }

  lemma OrderlyShape(f: Sys, op: Op)
    requires Refs(f) && Enabled(f, op) && Orderly(f, op)
    ensures var s' := Apply(f, op).s;
            && s'.locks.Keys == f.s.locks.Keys
            && (forall l :: l in f.s.locks ==> s'.locks[l].holder == f.s.locks[l].holder || s'.locks[l].holder == None)
            && (forall l, w :: l in f.s.locks && w in s'.locks[l].waiters ==> w in f.s.locks[l].waiters)
            && (forall u :: PriorityOf(s', u) == PriorityOf(f.s, u))
  {
    hide Refs, Apply, PriorityOf;
    LockKeys(f, op);
    forall l | l in f.s.locks
      ensures Apply(f, op).s.locks[l].holder == f.s.locks[l].holder || Apply(f, op).s.locks[l].holder == None {
      StepShape(f, op, l);
    }
    OrderlyWaiters(f, op);
    OrderlyPriorities(f, op);
  }

  lemma OrderlyWaiters(f: Sys, op: Op)
    requires Refs(f) && Enabled(f, op) && Orderly(f, op) && Apply(f, op).s.locks.Keys == f.s.locks.Keys
    ensures forall l, w :: l in f.s.locks && w in Apply(f, op).s.locks[l].waiters ==> w in f.s.locks[l].waiters
  {
    hide Kept, SortDonations, Inserted, Up, WakeOrder;
    if op.Next? && f.at[op.t].Upping? {
      var l := f.at[op.t].l;
      UpFacts(f.s, l);
      WakeOrderItems(f.s, l);
      SameItems(WakeOrder(f.s, l), f.s.locks[l].waiters);
    }
    if op.Next? && f.at[op.t].Sorting? { ResortItems(f, op.t); }
  }

  lemma OrderlyPriorities(f: Sys, op: Op)
    requires Refs(f) && Enabled(f, op) && Orderly(f, op)
    ensures forall u :: PriorityOf(Apply(f, op).s, u) == PriorityOf(f.s, u)
  {
    hide Kept, SortDonations, SortWaiters, Inserted, Up, WakeOrder;
    if op.Next? && f.at[op.t].Upping? { UpFacts(f.s, f.at[op.t].l); }
  }

  lemma ResortItems(f: Sys, t: Tid)
    requires Refs(f) && Enabled(f, Next(t)) && f.at[t].Sorting?
    ensures forall l, w :: l in f.s.locks && w in Continue(f, t).s.locks[l].waiters ==> w in f.s.locks[l].waiters
  {
    hide SortWaiters, Closed;
    ResortWaiters(f, t, f.at[t].l, f.at[t].h);
  }

  lemma ResortWaiters(f: Sys, t: Tid, k: Lid, h: Tid)
    requires Closed(f.s) && h in f.s.threads
    ensures Resort(f, t, k, h).s.locks.Keys == f.s.locks.Keys
    ensures forall l, w :: l in f.s.locks && w in Resort(f, t, k, h).s.locks[l].waiters ==> w in f.s.locks[l].waiters
  {
    hide SortWaiters;
    if f.s.threads[h].pending.Some? {
      var m := f.s.threads[h].pending.value;
      SameItems(SortWaiters(f.s.threads, f.s.locks[m].waiters), f.s.locks[m].waiters);
    }
  }

  /** Each step leaves no waiter above its holder exactly when this holds before it. */
  lemma DominatesIff(f: Sys, op: Op)
    requires Inv(f) && Refs(f) && Enabled(f, op) && Dominates(f.s)
    ensures Dominates(Apply(f, op).s) <==> StaysAbove(f, op)
  {
    hide Inv, Refs, Dominates, Continue, WaitersAtMost, HeldAtMost, HolderAtLeast;
    if Orderly(f, op) {
      OrderlyDominates(f, op);
    } else if f.at[op.t].Raising? {
      RaiseDominates(f, op.t);
    } else if f.at[op.t].Downing? {
      DownDominates(f, op.t);
    } else if f.at[op.t].Settling? {
      SettleDominates(f, op.t);
    } else {
      PriorityDominates(f, op.t);
    }
  }

  /** So over a whole run no waiter is ever above its holder exactly if every step passes. */
  lemma {:induction false} RunDominatesIff(tr: seq<Sys>, ops: seq<Op>, n: nat)
    requires IsRun(tr, ops) && Start(tr[0]) && n <= |ops|
    ensures (forall i :: 0 <= i <= n ==> Dominates(tr[i].s)) <==> (forall i :: 0 <= i < n ==> StaysAbove(tr[i], ops[i]))
  {
    hide Inv, Refs, Enabled, Apply, StaysAbove, Dominates;
    if n == 0 {
      FreshInv(tr[0].s);
    } else {
      hide Start;
      RunDominatesIff(tr, ops, n - 1);
      RunKeeps(tr, ops, n - 1);
      assert Enabled(tr[n - 1], ops[n - 1]) && tr[n - 1 + 1] == Apply(tr[n - 1], ops[n - 1]);
      if Dominates(tr[n - 1].s) { DominatesIff(tr[n - 1], ops[n - 1]); }
    }
  }

  // ---------- calls that nobody interrupts ----------

  /** N more steps of T alone lead from F to G. */
  ghost predicate Solo(f: Sys, t: Tid, n: nat, g: Sys)
    decreases n
  {
    if n == 0 then f == g
    else Refs(f) && Enabled(f, Next(t)) && Solo(Continue(f, t), t, n - 1, g)
  }

  lemma {:induction false} SoloJoin(f: Sys, t: Tid, m: nat, g: Sys, n: nat, h: Sys)
    requires Solo(f, t, m, g) && Solo(g, t, n, h)
    ensures Solo(f, t, m + n, h)
    decreases m
  {
    hide Refs, Continue;
    if m > 0 { SoloJoin(Continue(f, t), t, m - 1, g, n, h); }
  }

  /** One step of T. */
  lemma SoloStep(f: Sys, t: Tid, g: Sys)
    requires Inv(f) && t in f.at && t in f.s.threads && !f.at[t].Idle? && !f.s.threads[t].pc.Blocked?
    requires Refs(f) ==> Continue(f, t) == g
    ensures Refs(f) && Continue(f, t) == g && Solo(f, t, 1, g) && Inv(g)
  {
    hide Inv, Refs, Continue;
    InvRefs(f);
    assert Solo(g, t, 0, g);
    ContinueKeeps(f, t);
  }

  lemma UninterruptedSet(f: Sys, t: Tid, p: int)
    requires Inv(f) && Refs(f) && Enabled(f, StartSet(t, p))
    ensures Solo(Apply(f, StartSet(t, p)), t, 2, Sys(SetPriority(f.s, t, p), f.at))
  {
    hide Inv, Refs, Solo;
    InvAt(f, t);
    var f1, th := Apply(f, StartSet(t, p)), f.s.threads[t];
    ApplyKeeps(f, StartSet(t, p));
    var f2 := Goto(f1, t, Assigning(Effective(p, th.donations)));
    SoloStep(f1, t, f2);
    var f3 := Sys(SetPriority(f.s, t, p), f.at);
    assert f.at[t := Idle] == f.at;
    assert f2.at[t := Idle] == f3.at;
    SoloStep(f2, t, f3);
    SoloJoin(f1, t, 1, f2, 1, f3);
  }

  lemma UninterruptedTry(f: Sys, t: Tid, l: Lid)
    requires Inv(f) && Refs(f) && Enabled(f, StartTry(t, l))
    ensures Solo(Apply(f, StartTry(t, l)), t, if f.s.locks[l].value > 0 then 1 else 0, Sys(TryAcquire(f.s, t, l), f.at))
  {
    hide Inv, Refs;
    InvAt(f, t);
    var f1, g := Apply(f, StartTry(t, l)), Sys(TryAcquire(f.s, t, l), f.at);
    ApplyKeeps(f, StartTry(t, l));
    if f.s.locks[l].value > 0 {
      assert f.at[t := Idle] == f.at && f1.at[t := Idle] == f.at;
      assert f.s.threads[t].pc == Running;
      assert f.s.threads[t := f.s.threads[t].(pc := Running)] == f.s.threads;
      SoloStep(f1, t, g);
    }
  }

  /** lock_release without interruption. */
  lemma UninterruptedRelease(f: Sys, t: Tid, l: Lid) returns (n: nat)
    requires Inv(f) && Refs(f) && Enabled(f, StartRelease(t, l))
    ensures Solo(Apply(f, StartRelease(t, l)), t, n, Sys(Release(f.s, t, l), f.at))
  {
    hide Inv, Refs, Solo, Closed, Kept, Up, Recalculated;
    InvRefs(f);
    InvAt(f, t);
    var f1 := Apply(f, StartRelease(t, l));
    ApplyKeeps(f, StartRelease(t, l));
    var f2, m := UninterruptedRecalc(f1, t, l);
    DroppedShape(f.s, t, l);
    var th := f.s.threads[t].(donations := Kept(f.s.threads[t].donations, l));
    PutTwice(f, t, th, Removed(l), Recalculated(th), Clearing(l));
    RecalculatedFields(th);
    var g := Sys(Release(f.s, t, l), f.at);
    ReleaseTail(f, f2, t, l, Recalculated(th));
    n := m + 2;
    SoloJoin(f1, t, m, f2, 2, g);
  }

  lemma ReleaseTail(f: Sys, f2: Sys, t: Tid, l: Lid, th: Thread)
    requires Inv(f2) && Closed(f.s) && t in f.at && t in f.s.threads && l in f.s.locks && f.at[t] == Idle
    requires th == Recalculated(f.s.threads[t].(donations := Kept(f.s.threads[t].donations, l))) && th.pc == Running
    requires f2 == Put(f, t, th, Clearing(l))
    ensures Solo(f2, t, 2, Sys(Release(f.s, t, l), f.at))
  {
    hide Inv, Refs, Solo, Closed, Kept, Up, Recalculated;
    var f3 := PutLock(f2, l, f2.s.locks[l].(holder := None), t, Upping(l));
    DroppedShape(f.s, t, l);
    SoloStep(f2, t, f3);
    assert f3.s == D.Dropped(f.s, t, l);
    assert f3.at[t := Idle] == f.at;
    SoloStep(f3, t, Sys(Release(f.s, t, l), f.at));
    SoloJoin(f2, t, 1, f3, 1, Sys(Release(f.s, t, l), f.at));
  }

  lemma UninterruptedRecalc(f: Sys, t: Tid, l: Lid) returns (g: Sys, n: nat)
    requires Inv(f) && Refs(f) && t in f.at && t in f.s.threads && f.at[t] == Removed(l) && f.s.threads[t].pc == Running
    ensures Solo(f, t, n, g) && Inv(g)
    ensures g == Put(f, t, Recalculated(f.s.threads[t]), Clearing(l))
  {
    hide Inv, Refs, Solo, SortDonations, Recalculated;
    var th := f.s.threads[t];
    g := Put(f, t, Recalculated(th), Clearing(l));
    var lowered := th.(priority := th.original);
    var f1 := Put(f, t, lowered, Lowered(l));
    SoloStep(f, t, f1);
    RecalcParts(th);
    if th.donations == [] {
      GotoIsPut(f1, t, Clearing(l));
      PutTwice(f, t, lowered, Lowered(l), lowered, Clearing(l));
      SoloStep(f1, t, g);
      n := 2;
      SoloJoin(f, t, 1, f1, 1, g);
    } else {
      var ds := SortDonations(th.donations);
      var fronted := lowered.(donations := ds);
      PutTwice(f, t, lowered, Lowered(l), fronted, Fronted(l, ds[0].priority));
      var f2 := Put(f, t, fronted, Fronted(l, ds[0].priority));
      SoloStep(f1, t, f2);
      PutTwice(f, t, fronted, Fronted(l, ds[0].priority), Recalculated(th), Clearing(l));
      SoloStep(f2, t, g);
      n := 3;
      SoloJoin(f1, t, 1, f2, 1, g);
      SoloJoin(f, t, 1, f1, 2, g);
    }
  }

  lemma PutTwice(f: Sys, t: Tid, th: Thread, a: At, uh: Thread, b: At)
    ensures Put(Put(f, t, th, a), t, uh, b) == Put(f, t, uh, b)
  {
    assert f.s.threads[t := th][t := uh] == f.s.threads[t := uh] && f.at[t := a][t := b] == f.at[t := b];
  }

  lemma RecalcParts(th: Thread)
    ensures th.donations == [] ==> Recalculated(th) == th.(priority := th.original)
    ensures th.donations != [] ==> var ds := SortDonations(th.donations);
      |ds| > 0 && Recalculated(th) ==
        th.(donations := ds, priority := if th.original < ds[0].priority then ds[0].priority else th.original)
  {
  }

  /** lock_acquire without interruption, up to where it owns the lock or waits. */
  lemma UninterruptedAcquire(f: Sys, t: Tid, l: Lid, rank: map<Tid, nat>) returns (n: nat)
    requires Inv(f) && Refs(f) && Enabled(f, StartAcquire(t, l)) && Ranked(Waiting(f.s, t, l), rank)
    ensures var s' := Acquire(f.s, t, l, rank);
            Solo(Apply(f, StartAcquire(t, l)), t, n, Sys(s', if f.s.locks[l].value > 0 then f.at else f.at[t := Downing(l)]))
  {
    hide Inv, Refs, Solo, Ranked, Walk, Down, Closed;
    InvRefs(f);
    InvAt(f, t);
    DonateShape(f.s, t, l, rank);
    var f1 := Apply(f, StartAcquire(t, l));
    ApplyKeeps(f, StartAcquire(t, l));
    if f.s.locks[l].holder == None {
      n := UninterruptedDown(f1, t, l);
      assert f1.at[t := Idle] == f.at;
    } else {
      n := UninterruptedWait(f, t, l, rank);
    }
  }

  /** The same on a lock that is held. */
  lemma UninterruptedWait(f: Sys, t: Tid, l: Lid, rank: map<Tid, nat>) returns (n: nat)
    requires Inv(f) && Refs(f) && Enabled(f, StartAcquire(t, l)) && Closed(f.s) && Ranked(Waiting(f.s, t, l), rank)
    requires f.s.locks[l].holder.Some? && Inv(Test(f, t, l))
    ensures f.s.locks[l].value == 0
    ensures Solo(Test(f, t, l), t, n, Sys(Acquire(f.s, t, l, rank), f.at[t := Downing(l)]))
  {
    hide Inv, Refs, Solo, Ranked, Walk, Down, Closed, OwnersOk;
    InvAt(f, t);
    InvLock(f, l);
    UnitsOk(f, l);
    WaitingClosed(f.s, t, l);
    var f1 := Test(f, t, l);
    assert f1.s == Waiting(f.s, t, l);
    RankOf(f1.s, rank, t);
    var f2, m := UninterruptedWalk(f1, t, l, Some(l), rank);
    DonateShape(f.s, t, l, rank);
    ShapeOf(f1.s, f2.s, t, l);
    var k := UninterruptedDown(f2, t, l);
    n := m + k;
    assert f2.at == f.at[t := Downing(l)];
    SoloJoin(f1, t, m, f2, k, Sys(Acquire(f.s, t, l, rank), f.at[t := Downing(l)]));
  }

  /** From sema_down on. */
  lemma UninterruptedDown(f: Sys, t: Tid, l: Lid) returns (n: nat)
    requires Inv(f) && t in f.at && t in f.s.threads && l in f.s.locks && f.at[t] == Downing(l) && !f.s.threads[t].pc.Blocked?
    ensures Solo(f, t, n, Sys(Down(f.s, t, l), if f.s.locks[l].value > 0 then f.at[t := Idle] else f.at))
  {
    hide Inv, Refs, Solo, Inserted;
    var g := Sys(Down(f.s, t, l), if f.s.locks[l].value > 0 then f.at[t := Idle] else f.at);
    if f.s.locks[l].value == 0 {
      n := 1;
      SoloStep(f, t, g);
    } else {
      var f1 := Take(f, t, l, Taken(l));
      SoloStep(f, t, f1);
      var f2 := Put(f1, t, f1.s.threads[t].(pending := None), Settling(l));
      SoloStep(f1, t, f2);
      assert f2.at[t := Idle] == g.at;
      assert f2.s.threads == g.s.threads && f2.s.locks[l := f2.s.locks[l].(holder := Some(t))] == g.s.locks;
      SoloStep(f2, t, g);
      n := 3;
      SoloJoin(f1, t, 1, f2, 1, g);
      SoloJoin(f, t, 1, f1, 2, g);
    }
  }

  /** The donation loop. */
  lemma {:induction false} UninterruptedWalk(f: Sys, t: Tid, l: Lid, next: Option<Lid>, rank: map<Tid, nat>)
    returns (g: Sys, n: nat)
    requires Inv(f) && Closed(f.s) && t in f.at && t in f.s.threads && f.at[t] == Walking(l, next) && !f.s.threads[t].pc.Blocked?
    requires Ranked(f.s, rank) && (next.Some? ==> next.value in f.s.locks)
    requires Below(f.s, rank, next, rank[t])
    ensures Solo(f, t, n, g) && Inv(g)
    ensures g == Sys(Walk(f.s, t, f.s.threads[t].priority, next, rank), f.at[t := Downing(l)])
    ensures t in g.s.threads && g.s.threads[t] == f.s.threads[t]
    decreases Ahead(f.s, next, rank)
  {
    hide Inv, Refs, Solo, Closed, Ranked, GiveDonation, Ahead, SameShape, Below;
    var p := f.s.threads[t].priority;
    HolderOf(f.s, next);
    if next == None || f.s.locks[next.value].holder == None || p < f.s.threads[f.s.locks[next.value].holder.value].priority {
      g, n := Goto(f, t, Downing(l)), 1;
      SoloStep(f, t, g);
    } else {
      var h := f.s.locks[next.value].holder.value;
      NotItself(f.s, rank, t, next.value);
      GiveDonationShape(f.s, h, p, t, next.value);
      var s1 := GiveDonation(f.s, h, p, t, next.value);
      SameShapeRanked(f.s, s1, rank);
      AheadDrops(f.s, s1, next, rank);
      var f1 := OneDonation(f, t, l, next.value, h);
      ShapeNext(f.s, s1, rank, t, next.value);
      var m;
      g, m := UninterruptedWalk(f1, t, l, f.s.threads[h].pending, rank);
      n := 4 + m;
      SoloJoin(f, t, 4, f1, m, g);
      assert f1.at[t := Downing(l)] == f.at[t := Downing(l)];
    }
  }

  lemma HolderOf(s: State, next: Option<Lid>)
    requires Closed(s) && (next.Some? ==> next.value in s.locks)
    ensures next.Some? && s.locks[next.value].holder.Some? ==> s.locks[next.value].holder.value in s.threads
  {
  }

  lemma NotItself(s: State, rank: map<Tid, nat>, t: Tid, k: Lid)
    requires Ranked(s, rank) && t in s.threads && k in s.locks && s.locks[k].holder.Some? && Below(s, rank, Some(k), rank[t])
    ensures s.locks[k].holder.value != t
  {
  }

  lemma ShapeNext(s: State, s': State, rank: map<Tid, nat>, t: Tid, k: Lid)
    requires Closed(s) && Ranked(s, rank) && SameShape(s, s') && Closed(s') && Ranked(s', rank) && t in s.threads
    requires k in s.locks && s.locks[k].holder.Some? && Below(s, rank, Some(k), rank[t])
    ensures var next := s.threads[s.locks[k].holder.value].pending;
            Below(s', rank, next, rank[t]) && (next.Some? ==> next.value in s'.locks)
  {
    BelowTrans(s, rank, Some(k), t);
  }

  /** One round of it, four steps. */
  lemma OneDonation(f: Sys, t: Tid, l: Lid, k: Lid, h: Tid) returns (g: Sys)
    requires Inv(f) && Closed(f.s) && t in f.at && t in f.s.threads && f.at[t] == Walking(l, Some(k)) && !f.s.threads[t].pc.Blocked?
    requires k in f.s.locks && f.s.locks[k].holder == Some(h) && h in f.s.threads && h != t
    requires f.s.threads[h].priority <= f.s.threads[t].priority
    ensures Solo(f, t, 4, g) && Inv(g)
    ensures g == Sys(GiveDonation(f.s, h, f.s.threads[t].priority, t, k), f.at[t := Walking(l, f.s.threads[h].pending)])
    ensures t in g.s.threads && g.s.threads[t] == f.s.threads[t]
  {
    hide Inv, Refs, Solo, Closed, Inserted, SortWaiters;
    var p, th := f.s.threads[t].priority, f.s.threads[h];
    var d := Donation(p, t, k);
    var f1 := Goto(f, t, Raising(l, h, d));
    SoloStep(f, t, f1);
    var f2 := Raise(f1, t, l, h, d);
    SoloStep(f1, t, f2);
    var f3 := Record(f2, t, l, h, d);
    SoloStep(f2, t, f3);
    assert Refs(f3) && Closed(f3.s) by { InvRefs(f3); }
    g := Resort(f3, t, l, h);
    SoloStep(f3, t, g);
    RoundGives(f, f3, g, t, l, k, h, d);
    SoloJoin(f2, t, 1, f3, 1, g);
    SoloJoin(f1, t, 1, f2, 2, g);
    SoloJoin(f, t, 1, f1, 3, g);
  }

  lemma RoundGives(f: Sys, f3: Sys, g: Sys, t: Tid, l: Lid, k: Lid, h: Tid, d: Donation)
    requires Closed(f.s) && Closed(f3.s) && t in f.s.threads && h in f.s.threads && h != t
    requires d == Donation(f.s.threads[t].priority, t, k) && f.s.threads[h].priority <= d.priority
    requires var f1 := Goto(f, t, Raising(l, h, d)); f3 == Record(Raise(f1, t, l, h, d), t, l, h, d)
    requires g == Resort(f3, t, l, h)
    ensures g == Sys(GiveDonation(f.s, h, d.priority, t, k), f.at[t := Walking(l, f.s.threads[h].pending)])
  {
    hide Resort, GiveDonation, Closed, Raise, Record;
    var th := f.s.threads[h];
    var given := th.(priority := if th.priority < d.priority then d.priority else th.priority,
                     donations := Inserted(DonationLess(), th.donations, d));
    RaiseAndRecord(f, t, l, h, d, given);
    ResortGives(f, f3, t, l, k, h, d, given);
    ResortAt(f3, t, l, h);
    assert f3.at[t := Walking(l, th.pending)] == f.at[t := Walking(l, th.pending)];
  }

  lemma RaiseAndRecord(f: Sys, t: Tid, l: Lid, h: Tid, d: Donation, given: Thread)
    requires t in f.s.threads && h in f.s.threads && h != t && d.priority == f.s.threads[t].priority
    requires var th := f.s.threads[h];
      given == th.(priority := if th.priority < d.priority then d.priority else th.priority,
                   donations := Inserted(DonationLess(), th.donations, d))
    ensures var g := Record(Raise(Goto(f, t, Raising(l, h, d)), t, l, h, d), t, l, h, d);
            g.s == State(f.s.threads[h := given], f.s.locks) && g.at == f.at[t := Sorting(l, h)]
  {
    hide Inserted;
    var th := f.s.threads[h];
    var raised := th.(priority := if th.priority < d.priority then d.priority else th.priority);
    assert f.s.threads[h := raised][h := given] == f.s.threads[h := given];
    assert f.at[t := Raising(l, h, d)][t := Recording(l, h, d)][t := Sorting(l, h)] == f.at[t := Sorting(l, h)];
  }

  lemma ResortGives(f: Sys, f3: Sys, t: Tid, l: Lid, k: Lid, h: Tid, d: Donation, given: Thread)
    requires Closed(f.s) && Closed(f3.s) && h in f.s.threads
    requires given == f.s.threads[h].(
      priority := if f.s.threads[h].priority < d.priority then d.priority else f.s.threads[h].priority,
      donations := Inserted(DonationLess(), f.s.threads[h].donations, d))
    requires d == Donation(d.priority, t, k) && f3.s == State(f.s.threads[h := given], f.s.locks)
    ensures Resort(f3, t, l, h).s == GiveDonation(f.s, h, d.priority, t, k)
  {
    hide Inserted, SortWaiters;
  }

  lemma ResortAt(f: Sys, t: Tid, l: Lid, h: Tid)
    requires Closed(f.s) && h in f.s.threads
    ensures Resort(f, t, l, h).at == f.at[t := Walking(l, f.s.threads[h].pending)]
  {
    hide SortWaiters, Closed;
  }

  // ---------- runs that fail ----------

  /** Some run leads from F to G. */
  ghost predicate Reaches(f: Sys, g: Sys) {
    exists tr, ops :: IsRun(tr, ops) && tr[0] == f && tr[|ops|] == g
  }

  lemma ReachesSelf(f: Sys)
    ensures Reaches(f, f)
  {
    assert IsRun([f], []);
  }

  lemma ReachesStep(f: Sys, g: Sys, op: Op)
    requires Reaches(f, g) && Refs(g) && Enabled(g, op)
    ensures Reaches(f, Apply(g, op))
  {
    hide Refs, Enabled, Apply;
    var tr, ops :| IsRun(tr, ops) && tr[0] == f && tr[|ops|] == g;
    var tr', ops' := tr + [Apply(g, op)], ops + [op];
    forall i | 0 <= i < |ops'| ensures Refs(tr'[i]) && Enabled(tr'[i], ops'[i]) && tr'[i + 1] == Apply(tr'[i], ops'[i]) {
      if i < |ops| { assert tr'[i] == tr[i] && tr'[i + 1] == tr[i + 1] && ops'[i] == ops[i]; }
    }
    assert IsRun(tr', ops') && tr'[0] == f && tr'[|ops'|] == Apply(g, op);
  }

  lemma {:induction false} ReachesSolo(f: Sys, g: Sys, t: Tid, n: nat, h: Sys)
    requires Reaches(f, g) && Solo(g, t, n, h)
    ensures Reaches(f, h)
    decreases n
  {
    hide Refs, Continue, Reaches;
    if n > 0 {
      ReachesStep(f, g, Next(t));
      ReachesSolo(f, Continue(g, t), t, n - 1, h);
    }
  }

  lemma ReachesInv(f: Sys, g: Sys)
    requires Start(f) && Reaches(f, g)
    ensures Inv(g) && Refs(g)
  {
    hide Start, Inv, Refs, Enabled, Apply;
    var tr, ops :| IsRun(tr, ops) && tr[0] == f && tr[|ops|] == g;
    RunKeeps(tr, ops, |ops|);
  }

  /** Threads 0 and 1 of priorities 5 and 10, and a free lock. */
  function Begin(): Sys {
    Sys(State(map[0 := Plain(5), 1 := Plain(10)], map[0 := Lock(None, 1, [])]), map[0 := Idle, 1 := Idle])
  }

  /** Thread 0, whose own priority is O, holds the lock and is at A. */
  function Held(o: int, a: At): Sys {
    Sys(State(map[0 := Thread(5, o, [], None, Running), 1 := Plain(10)], map[0 := Lock(Some(0), 0, [])]), map[0 := a, 1 := Idle])
  }

  /** Thread 1 has donated to it and waits. */
  function Queued(o: int, a: At): Sys {
    Sys(State(map[0 := Thread(10, o, [Donation(10, 1, 0)], None, Running), 1 := Thread(10, 10, [], Some(0), Blocked(0))],
              map[0 := Lock(Some(0), 0, [1])]), map[0 := a, 1 := Downing(0)])
  }

  lemma BeginStarts()
    ensures Start(Begin()) && Inv(Begin()) && Refs(Begin())
  {
    StartInv(Begin());
    hide Inv;
    InvRefs(Begin());
  }

  lemma BeginHeld()
    ensures Reaches(Begin(), Held(5, Idle))
  {
    hide Inv, Refs, Reaches, Solo, Start;
    BeginStarts();
    var f := Begin();
    ReachesSelf(f);
    ReachesStep(f, f, StartAcquire(0, 0));
    var f1 := Goto(f, 0, Downing(0));
    ReachesInv(f, f1);
    var n := UninterruptedDown(f1, 0, 0);
    assert Down(f1.s, 0, 0).threads == Held(5, Idle).s.threads && Down(f1.s, 0, 0).locks == Held(5, Idle).s.locks;
    assert f1.at[0 := Idle] == Held(5, Idle).at;
    ReachesSolo(f, f1, 0, n, Held(5, Idle));
  }

  /** Thread 1 tries to take the lock. */
  lemma HeldQueued(o: int, a: At)
    requires Reaches(Begin(), Held(o, a))
    ensures Reaches(Begin(), Queued(o, a))
  {
    hide Inv, Refs, Reaches, Solo, Start;
    BeginStarts();
    var f := Held(o, a);
    ReachesInv(Begin(), f);
    ReachesStep(Begin(), f, StartAcquire(1, 0));
    var f1 := Test(f, 1, 0);
    ReachesInv(Begin(), f1);
    InvRefs(f1);
    var f2 := OneDonation(f1, 1, 0, 0, 0);
    ReachesSolo(Begin(), f1, 1, 4, f2);
    HeldGives(o, a, f1, f2);
    HeldWaits(o, a, f2);
  }

  lemma HeldGives(o: int, a: At, f1: Sys, f2: Sys)
    requires f1 == Test(Held(o, a), 1, 0) && Closed(f1.s)
    requires f2 == Sys(GiveDonation(f1.s, 0, 10, 1, 0), f1.at[1 := Walking(0, None)])
    ensures f2.s == Queued(o, a).s.(threads := Queued(o, a).s.threads[1 := Thread(10, 10, [], Some(0), Running)],
                                    locks := Held(o, a).s.locks)
    ensures f2.at == map[0 := a, 1 := Walking(0, None)]
  {
    assert Inserted(DonationLess(), [], Donation(10, 1, 0)) == [Donation(10, 1, 0)];
  }

  lemma HeldWaits(o: int, a: At, f: Sys)
    requires Reaches(Begin(), f) && f.at == map[0 := a, 1 := Walking(0, None)]
    requires f.s == Queued(o, a).s.(threads := Queued(o, a).s.threads[1 := Thread(10, 10, [], Some(0), Running)],
                                    locks := Held(o, a).s.locks)
    ensures Reaches(Begin(), Queued(o, a))
  {
    hide Inv, Refs, Reaches, Start;
    BeginStarts();
    ReachesInv(Begin(), f);
    ReachesStep(Begin(), f, Next(1));
    var f1 := Goto(f, 1, Downing(0));
    ReachesInv(Begin(), f1);
    JoinsQueue(o, a, f1);
  }

  lemma JoinsQueue(o: int, a: At, f: Sys)
    requires Reaches(Begin(), f) && Refs(f) && f.at == map[0 := a, 1 := Downing(0)]
    requires f.s == Queued(o, a).s.(threads := Queued(o, a).s.threads[1 := Thread(10, 10, [], Some(0), Running)],
                                    locks := Held(o, a).s.locks)
    ensures Reaches(Begin(), Queued(o, a))
  {
    hide Refs, Reaches, Begin, Inserted, Queued, Held;
    AboutToWait(o, a, f);
    ReachesStep(Begin(), f, Next(1));
    JoinedQueue(o, a, f);
  }

  lemma AboutToWait(o: int, a: At, f: Sys)
    requires f.at == map[0 := a, 1 := Downing(0)]
    requires f.s == Queued(o, a).s.(threads := Queued(o, a).s.threads[1 := Thread(10, 10, [], Some(0), Running)],
                                    locks := Held(o, a).s.locks)
    ensures 1 in f.s.threads && 0 in f.s.locks && f.s.locks[0].value == 0 && f.s.threads[1].pc == Running
  {
  }

  lemma JoinedQueue(o: int, a: At, f: Sys)
    requires f.at == map[0 := a, 1 := Downing(0)]
    requires f.s == Queued(o, a).s.(threads := Queued(o, a).s.threads[1 := Thread(10, 10, [], Some(0), Running)],
                                    locks := Held(o, a).s.locks)
    ensures 1 in f.s.threads && 0 in f.s.locks && Wait(f, 1, 0) == Queued(o, a)
  {
    assert Inserted(ThreadLess(f.s.threads), [], 1) == [1];
    assert Wait(f, 1, 0).s.threads == Queued(o, a).s.threads;
  }

  /** Thread 0 inside lock_release, past recalc_priority. */
  lemma HeldClearing()
    ensures Reaches(Begin(), Held(5, Clearing(0)))
  {
    hide Inv, Refs, Reaches, Solo, Start, Recalculated;
    BeginStarts();
    BeginHeld();
    var f := Held(5, Idle);
    ReachesInv(Begin(), f);
    ReachesStep(Begin(), f, StartRelease(0, 0));
    var f1 := Held(5, Removed(0));
    assert Apply(f, StartRelease(0, 0)).s.threads == f1.s.threads;
    assert Apply(f, StartRelease(0, 0)) == f1;
    ReachesInv(Begin(), f1);
    var g, n := UninterruptedRecalc(f1, 0, 0);
    RecalcParts(f1.s.threads[0]);
    assert g.s.threads == f1.s.threads && g == Held(5, Clearing(0));
    ReachesSolo(Begin(), f1, 0, n, g);
  }

  /** The thread of the next lemma after its lock_release. */
  function Left(): Sys {
    Sys(State(map[0 := Thread(10, 5, [Donation(10, 1, 0)], None, Running), 1 := Thread(10, 10, [], Some(0), Woken(0))],
              map[0 := Lock(None, 1, [])]), map[0 := Idle, 1 := Downing(0)])
  }

  /** A donation that comes between recalc_priority and the statement that clears the holder stays: the
      thread returns from lock_release holding nothing, with a donation for the lock and its priority. */
  lemma LateDonation()
    ensures Start(Begin()) && Reaches(Begin(), Left())
    ensures forall l :: l in Left().s.locks ==> Owners(Left(), l) == {}
    ensures !NamesHeld(Left().s) && !DonationsOk(Left().s, 0)
  {
    hide Inv, Refs, Reaches, Solo, Start;
    BeginStarts();
    HeldClearing();
    HeldQueued(5, Clearing(0));
    LateClears();
    var ds := Left().s.threads[0].donations;
    assert ds[0].lock == 0 && Left().s.locks[0].holder == None;
    assert !HoldsAll(Left().s.locks, 0, ds);
  }

  lemma LateClears()
    requires Reaches(Begin(), Queued(5, Clearing(0)))
    ensures Reaches(Begin(), Left())
  {
    hide Inv, Refs, Reaches, Solo, Start, Up, WakeOrder;
    BeginStarts();
    var f := Queued(5, Clearing(0));
    ReachesInv(Begin(), f);
    ReachesStep(Begin(), f, Next(0));
    var f1 := PutLock(f, 0, Lock(None, 0, [1]), 0, Upping(0));
    ReachesInv(Begin(), f1);
    InvRefs(f1);
    ReachesStep(Begin(), f1, Next(0));
    LateUp(f1);
  }

  lemma LateUp(f: Sys)
    requires Closed(f.s) && f == PutLock(Queued(5, Clearing(0)), 0, Lock(None, 0, [1]), 0, Upping(0))
    ensures Sys(Up(f.s, 0), f.at[0 := Idle]) == Left()
  {
    hide Up, WakeOrder;
    UpFacts(f.s, 0);
    WakeOrderItems(f.s, 0);
    SameItems(WakeOrder(f.s, 0), [1]);
    assert WakeOrder(f.s, 0)[0] in WakeOrder(f.s, 0);
    assert Up(f.s, 0).threads == Left().s.threads && Up(f.s, 0).locks == Left().s.locks;
    assert f.at[0 := Idle] == Left().at;
  }

  /** A donation that comes between the test and the assignment of thread_set_priority is lost: the
      holder falls to its new priority of 3, below the waiter that has donated 10. */
  lemma LostDonation()
    ensures Start(Begin()) && Reaches(Begin(), Queued(3, Assigning(3))) && Refs(Queued(3, Assigning(3)))
    ensures var g := Continue(Queued(3, Assigning(3)), 0);
            && Reaches(Begin(), g) && 0 in g.s.threads && !DonationsOk(g.s, 0) && NamesHeld(g.s) && !Dominates(g.s)
  {
    hide Inv, Refs, Reaches, Solo, Start;
    BeginStarts();
    BeginHeld();
    var f := Held(5, Idle);
    ReachesInv(Begin(), f);
    ReachesStep(Begin(), f, StartSet(0, 3));
    assert Apply(f, StartSet(0, 3)).s.threads == Held(3, Changed(3)).s.threads;
    assert Apply(f, StartSet(0, 3)) == Held(3, Changed(3));
    ReachesInv(Begin(), Held(3, Changed(3)));
    ReachesStep(Begin(), Held(3, Changed(3)), Next(0));
    assert Continue(Held(3, Changed(3)), 0) == Held(3, Assigning(3));
    HeldQueued(3, Assigning(3));
    var q := Queued(3, Assigning(3));
    ReachesInv(Begin(), q);
    ReachesStep(Begin(), q, Next(0));
    LostOrder();
  }

  lemma LostOrder()
    requires Refs(Queued(3, Assigning(3)))
    ensures var g := Continue(Queued(3, Assigning(3)), 0);
            0 in g.s.threads && !DonationsOk(g.s, 0) && NamesHeld(g.s) && !Dominates(g.s)
  {
    hide Refs;
    var g := Continue(Queued(3, Assigning(3)), 0);
    assert 1 in g.s.locks[0].waiters && PriorityOf(g.s, 1) == 10;
    assert !DominatesAt(g.s, 0);
    assert g.s.threads[1].donations == [];
  }

  /** Thread 0 has taken the semaphore but is not recorded as the holder yet; thread 1, which has found no
      holder and so has donated nothing, waits. */
  function Unrecorded(pending: bool): Sys {
    Sys(State(map[0 := Plain(5), 1 := Thread(10, 10, [], None, Blocked(0))], map[0 := Lock(None, 0, [1])]),
        map[0 := if pending then Taken(0) else Settling(0), 1 := Downing(0)])
  }

  function Taking(): Sys {
    Sys(State(map[0 := Plain(5), 1 := Plain(10)], map[0 := Lock(None, 0, [])]), map[0 := Taken(0), 1 := Idle])
  }

  /** When thread 0 then becomes the holder, it is below its waiter and has no donation. */
  lemma NullHolderOvertakes()
    ensures Start(Begin()) && Reaches(Begin(), Unrecorded(false)) && Dominates(Unrecorded(false).s)
    ensures Refs(Unrecorded(false)) && Enabled(Unrecorded(false), Next(0)) && !StaysAbove(Unrecorded(false), Next(0))
    ensures var g := Continue(Unrecorded(false), 0); Reaches(Begin(), g) && !Dominates(g.s)
  {
    hide Inv, Refs, Reaches, Start, Dominates, StaysAbove;
    BeginStarts();
    BeginTaking();
    TakingUnrecorded();
    ReachesInv(Begin(), Unrecorded(false));
    ReachesStep(Begin(), Unrecorded(false), Next(0));
    UnrecordedOrder();
    DominatesIff(Unrecorded(false), Next(0));
  }

  lemma TakingUnrecorded()
    requires Reaches(Begin(), Taking())
    ensures Reaches(Begin(), Unrecorded(false))
  {
    hide Inv, Refs, Reaches, Start;
    BeginStarts();
    var f := Taking();
    ReachesInv(Begin(), f);
    ReachesStep(Begin(), f, StartAcquire(1, 0));
    var f1 := Goto(f, 1, Downing(0));
    ReachesInv(Begin(), f1);
    ReachesStep(Begin(), f1, Next(1));
    TakingJoined(f1);
    ClearsPending();
  }

  lemma ClearsPending()
    requires Reaches(Begin(), Unrecorded(true))
    ensures Reaches(Begin(), Unrecorded(false))
  {
    hide Inv, Refs, Reaches, Start;
    BeginStarts();
    ReachesInv(Begin(), Unrecorded(true));
    ReachesStep(Begin(), Unrecorded(true), Next(0));
    assert Continue(Unrecorded(true), 0).s.threads == Unrecorded(false).s.threads;
    assert Continue(Unrecorded(true), 0) == Unrecorded(false);
  }

  lemma BeginTaking()
    ensures Reaches(Begin(), Taking())
  {
    hide Inv, Refs, Reaches, Start;
    BeginStarts();
    ReachesSelf(Begin());
    ReachesStep(Begin(), Begin(), StartAcquire(0, 0));
    var f := Goto(Begin(), 0, Downing(0));
    ReachesInv(Begin(), f);
    ReachesStep(Begin(), f, Next(0));
    assert Take(f, 0, 0, Taken(0)).s.threads == Taking().s.threads;
    assert Take(f, 0, 0, Taken(0)) == Taking();
  }

  lemma TakingJoined(f: Sys)
    requires f == Goto(Taking(), 1, Downing(0))
    ensures Wait(f, 1, 0) == Unrecorded(true)
  {
    InsertedAlone(f.s.threads, 1);
    hide Inserted, ThreadLess;
    var u := Unrecorded(true);
    assert f.s.threads[1 := Plain(10).(pc := Blocked(0))] == u.s.threads;
    assert f.s.locks[0 := Lock(None, 0, [1])] == u.s.locks;
    assert f.at == u.at;
  }

  lemma InsertedAlone(threads: map<Tid, Thread>, t: Tid)
    ensures Inserted(ThreadLess(threads), [], t) == [t]
  {
  }

  lemma UnrecordedOrder()
    ensures Dominates(Unrecorded(false).s) && Enabled(Unrecorded(false), Next(0)) && !StaysAbove(Unrecorded(false), Next(0))
  {
    var f := Unrecorded(false);
    assert 1 in f.s.locks[0].waiters && PriorityOf(f.s, 1) == 10;
    assert !WaitersAtMost(f.s, 0, 5);
  }

  /** Thread 0's lock_release has woken thread 1; thread 0 may have taken the lock again. */
  function Freed(holder: Option<Tid>): Sys {
    Sys(State(map[0 := Plain(5), 1 := Thread(10, 10, [], Some(0), Woken(0))],
              map[0 := Lock(holder, if holder == None then 1 else 0, [])]), map[0 := Idle, 1 := Downing(0)])
  }

  /** A thread that takes the lock between a release and the recheck of the woken thread is not raised by
      it: thread 1 goes back to waiting, above the holder and without a donation. */
  lemma BargingOvertakes()
    ensures Start(Begin()) && Reaches(Begin(), Freed(Some(0))) && Dominates(Freed(Some(0)).s)
    ensures Refs(Freed(Some(0))) && Enabled(Freed(Some(0)), Next(1)) && !StaysAbove(Freed(Some(0)), Next(1))
    ensures var g := Continue(Freed(Some(0)), 1); Reaches(Begin(), g) && !Dominates(g.s)
  {
    hide Inv, Refs, Reaches, Start, Dominates, StaysAbove;
    BeginStarts();
    BeginHeld();
    HeldQueued(5, Idle);
    QueuedFreed();
    FreedTaken();
    var f := Freed(Some(0));
    ReachesInv(Begin(), f);
    ReachesStep(Begin(), f, Next(1));
    FreedOrder();
    DominatesIff(f, Next(1));
  }

  lemma QueuedFreed()
    requires Reaches(Begin(), Queued(5, Idle))
    ensures Reaches(Begin(), Freed(None))
  {
    hide Inv, Refs, Reaches, Start, Solo, Release, Kept;
    BeginStarts();
    var f := Queued(5, Idle);
    ReachesInv(Begin(), f);
    InvRefs(f);
    ReachesStep(Begin(), f, StartRelease(0, 0));
    var n := UninterruptedRelease(f, 0, 0);
    QueuedRelease();
    ReachesSolo(Begin(), Apply(f, StartRelease(0, 0)), 0, n, Freed(None));
  }

  lemma QueuedRelease()
    requires Closed(Queued(5, Idle).s)
    ensures Release(Queued(5, Idle).s, 0, 0) == Freed(None).s
  {
    hide Up, WakeOrder, Recalculated, Closed;
    var s := Queued(5, Idle).s;
    var th := Thread(10, 5, [], None, Running);
    assert Kept([Donation(10, 1, 0)], 0) == [];
    RecalcParts(th);
    DroppedShape(s, 0, 0);
    var s1 := D.Dropped(s, 0, 0);
    UpFacts(s1, 0);
    WakeOrderItems(s1, 0);
    SameItems(WakeOrder(s1, 0), [1]);
    assert WakeOrder(s1, 0)[0] in WakeOrder(s1, 0);
    assert Up(s1, 0).threads == Freed(None).s.threads && Up(s1, 0).locks == Freed(None).s.locks;
  }

  lemma FreedTaken()
    requires Reaches(Begin(), Freed(None))
    ensures Reaches(Begin(), Freed(Some(0)))
  {
    hide Inv, Refs, Reaches, Start;
    BeginStarts();
    var f := Freed(None);
    ReachesInv(Begin(), f);
    ReachesStep(Begin(), f, StartTry(0, 0));
    var f1 := Take(f, 0, 0, Settling(0));
    ReachesInv(Begin(), f1);
    ReachesStep(Begin(), f1, Next(0));
    assert Continue(f1, 0).s.threads == Freed(Some(0)).s.threads && Continue(f1, 0).s.locks == Freed(Some(0)).s.locks;
    assert Continue(f1, 0).at == Freed(Some(0)).at;
  }

  lemma FreedOrder()
    ensures var f := Freed(Some(0)); Dominates(f.s) && Enabled(f, Next(1)) && !StaysAbove(f, Next(1))
  {
    var f := Freed(Some(0));
    assert !HolderAtLeast(f.s, 0, 1, 10);
  }
}
