/** timer_sleep, timer_interrupt and wake_up of devices/timer.c: the list of sleeping threads ordered by
    wakeup tick, and the global closet_tick in front of it. */
module SleepQueue {
  import opened Basics
  import opened ListSpec

  /** One call of timer_sleep: its number, its wakeup tick, and the tick at which it was put on the list. */
  datatype Sleeper = Sleeper(id: nat, wake: int, since: nat)

  /** The interrupt at tick AT woke the sleeper. */
  datatype Wakeup = Wakeup(sleeper: Sleeper, at: nat)

  datatype State = State(ticks: nat, closest: int, list: seq<Sleeper>, slept: seq<Sleeper>, woken: seq<Wakeup>)

  predicate Sooner(a: Sleeper, b: Sleeper) { a.wake < b.wake }

  function Start(): State { State(0, 0, [], [], []) }

  /** timer_sleep with interrupts off. WAKE was computed before, when the tick may have been lower. */
  function Sleep(s: State, wake: int): State {
    var x := Sleeper(|s.slept|, wake, s.ticks);
    s.(closest := if s.closest == 0 || s.closest > wake then wake else s.closest,
       list := Inserted(Sooner, s.list, x), slept := s.slept + [x])
  }

  /** How many sleepers at the front are due at tick T. */
  function Due(list: seq<Sleeper>, t: int): (k: nat)
    ensures k <= |list| && (forall i :: 0 <= i < k ==> list[i].wake <= t) && (k < |list| ==> list[k].wake > t)
  {
    if list == [] || list[0].wake > t then 0 else 1 + Due(list[1..], t)
  }

  function Wakeups(list: seq<Sleeper>, t: nat): (r: seq<Wakeup>)
    ensures |r| == |list| && forall i :: 0 <= i < |r| ==> r[i] == Wakeup(list[i], t)
  {
    seq(|list|, i requires 0 <= i < |list| => Wakeup(list[i], t))
  }

  /** wake_up. */
  function WakeUp(s: State, t: nat): State {
    var k := Due(s.list, t);
    var rest := s.list[k..];
    s.(list := rest, woken := s.woken + Wakeups(s.list[..k], t), closest := if rest == [] then 0 else rest[0].wake)
  }

  /** timer_interrupt. */
  function Interrupt(s: State): State {
    var n := s.(ticks := s.ticks + 1);
    if n.closest != 0 && n.ticks >= n.closest then WakeUp(n, n.ticks) else n
  }

  // ---------- the invariant ----------

  /** closet_tick is 0 exactly when nobody sleeps, and the front's wakeup tick otherwise. */
  ghost predicate ClosestOk(s: State) {
    (s.closest == 0 <==> s.list == []) && (s.list != [] ==> s.closest == s.list[0].wake)
  }

  ghost predicate InOrder(list: seq<Sleeper>) {
    forall i, j :: 0 <= i < j < |list| ==> list[i].wake <= list[j].wake
  }

  /** The first interrupt that may wake the sleeper. */
  function DueAt(x: Sleeper): int { if x.wake > x.since then x.wake else x.since + 1 }

  function Sleepers(w: seq<Wakeup>): (r: seq<Sleeper>)
    ensures |r| == |w| && forall i :: 0 <= i < |w| ==> r[i] == w[i].sleeper
  {
    seq(|w|, i requires 0 <= i < |w| => w[i].sleeper)
  }

  /** Nobody on the list is overdue. */
  ghost predicate Waiting(list: seq<Sleeper>, ticks: nat) {
    forall x :: x in list ==> ticks < DueAt(x) && x.wake != 0
  }

  ghost predicate OnTime(woken: seq<Wakeup>, ticks: nat) {
    forall w :: w in woken ==> w.at == DueAt(w.sleeper) <= ticks
  }

  ghost predicate Numbered(slept: seq<Sleeper>, ticks: nat) {
    forall i :: 0 <= i < |slept| ==> slept[i].id == i && slept[i].since <= ticks
  }

  /** Whoever went to sleep is on the list or has been woken, once. */
  ghost predicate Conserved(s: State) {
    multiset(s.slept) == multiset(s.list) + multiset(Sleepers(s.woken))
  }

  ghost predicate Inv(s: State) {
    && ClosestOk(s) && InOrder(s.list) && Waiting(s.list, s.ticks) && OnTime(s.woken, s.ticks)
    && Numbered(s.slept, s.ticks) && Conserved(s)
  }

  // ---------- sleeping ----------

  lemma InsertOrder(list: seq<Sleeper>, x: Sleeper)
    requires InOrder(list)
    ensures InOrder(Inserted(Sooner, list, x))
    ensures Inserted(Sooner, list, x)[0] == if list == [] || x.wake < list[0].wake then x else list[0]
  {
    var k := InsertPos(Sooner, list, x);
    var r := Inserted(Sooner, list, x);
    assert r == list[..k] + [x] + list[k..];
    forall i, j | 0 <= i < j < |r| ensures r[i].wake <= r[j].wake {
      assert i < k ==> !Sooner(x, list[i]);
      assert k < |list| ==> Sooner(x, list[k]);
      assert j > k ==> r[j] == list[j - 1];
    }
    assert k > 0 ==> !Sooner(x, list[0]);
  }

  lemma InsertItems(list: seq<Sleeper>, x: Sleeper)
    ensures forall y :: y in Inserted(Sooner, list, x) <==> y in list || y == x
  {
    var r := Inserted(Sooner, list, x);
    forall y ensures y in r <==> y in list || y == x {
      assert y in r <==> y in multiset(r);
      assert y in list <==> y in multiset(list);
    }
  }

  /** A sleep keeps closet_tick right, except that a wakeup tick of 0 becoming the front looks like an
      empty list. */
  lemma SleepClosestIff(s: State, wake: int)
    requires ClosestOk(s) && InOrder(s.list)
    ensures ClosestOk(Sleep(s, wake)) <==> wake != 0 || (s.list != [] && s.list[0].wake <= 0)
  {
    InsertOrder(s.list, Sleeper(|s.slept|, wake, s.ticks));
  }

  /** Then no interrupt wakes that sleeper, nor any behind it, until another thread goes to sleep. */
  lemma {:induction false} ZeroNeverWoken(s: State, k: nat)
    requires s.closest == 0
    ensures Ticks(s, k) == s.(ticks := s.ticks + k)
  {
    if k > 0 { ZeroNeverWoken(s, k - 1); }
  }

  function Ticks(s: State, k: nat): State {
    if k == 0 then s else Interrupt(Ticks(s, k - 1))
  }

  lemma SleepKeeps(s: State, wake: int)
    requires Inv(s) && wake != 0
    ensures Inv(Sleep(s, wake))
  {
    hide InOrder, ClosestOk, Waiting, Conserved, OnTime;
    var x := Sleeper(|s.slept|, wake, s.ticks);
    InsertOrder(s.list, x);
    SleepClosestIff(s, wake);
    SleepWaiting(s.list, s.ticks, x);
    SleepConserves(s, wake);
  }

  lemma SleepWaiting(list: seq<Sleeper>, ticks: nat, x: Sleeper)
    requires Waiting(list, ticks) && x.since == ticks && x.wake != 0
    ensures Waiting(Inserted(Sooner, list, x), ticks)
  {
    InsertItems(list, x);
    hide Inserted;
  }

  lemma SleepConserves(s: State, wake: int)
    requires Conserved(s)
    ensures Conserved(Sleep(s, wake))
  {
    var x := Sleeper(|s.slept|, wake, s.ticks);
    var l, w := Inserted(Sooner, s.list, x), Sleepers(s.woken);
    hide Inserted, Sleepers;
    assert multiset(s.slept + [x]) == multiset(s.slept) + multiset{x};
    assert multiset(l) + multiset(w) == multiset(s.list) + multiset(w) + multiset{x};
  }

  // ---------- waking ----------

  lemma WakeItems(list: seq<Sleeper>, woken: seq<Wakeup>, k: nat, t: nat)
    requires k <= |list|
    ensures multiset(list) + multiset(Sleepers(woken)) ==
            multiset(list[k..]) + multiset(Sleepers(woken + Wakeups(list[..k], t)))
  {
    assert list == list[..k] + list[k..];
    assert Sleepers(woken + Wakeups(list[..k], t)) == Sleepers(woken) + list[..k];
  }

  lemma WakeKeeps(s: State)
    requires Inv(s)
    ensures Inv(WakeUp(s.(ticks := s.ticks + 1), s.ticks + 1))
  {
    hide Wakeups, Sleepers, Due, InOrder, Waiting, OnTime;
    var t := s.ticks + 1;
    var k := Due(s.list, t);
    WakeItems(s.list, s.woken, k, t);
    ListSince(s);
    RestWaiting(s.list, s.ticks, k);
    WokenOnTime(s.list, s.woken, s.ticks, k);
  }

  lemma ListSince(s: State)
    requires Numbered(s.slept, s.ticks) && Conserved(s)
    ensures forall i :: 0 <= i < |s.list| ==> s.list[i].since <= s.ticks
  {
    hide Sleepers;
    forall i | 0 <= i < |s.list| ensures s.list[i].since <= s.ticks {
      assert s.list[i] in multiset(s.list);
      assert s.list[i] in multiset(s.slept);
      assert s.list[i] in s.slept;
    }
  }

  lemma RestWaiting(list: seq<Sleeper>, ticks: nat, k: nat)
    requires InOrder(list) && Waiting(list, ticks) && k <= |list| && (k < |list| ==> list[k].wake > ticks + 1)
    ensures InOrder(list[k..]) && Waiting(list[k..], ticks + 1) && (k < |list| ==> list[k].wake != 0)
  {
    forall x | x in list[k..] ensures ticks + 1 < DueAt(x) && x.wake != 0 {
      var i :| 0 <= i < |list[k..]| && list[k..][i] == x;
      assert x == list[k + i] && list[k].wake <= x.wake;
    }
    if k < |list| { assert list[k] in list; }
  }

  lemma WokenOnTime(list: seq<Sleeper>, woken: seq<Wakeup>, ticks: nat, k: nat)
    requires Waiting(list, ticks) && OnTime(woken, ticks) && k <= |list|
    requires forall i :: 0 <= i < k ==> list[i].wake <= ticks + 1
    requires forall i :: 0 <= i < k ==> list[i].since <= ticks
    ensures OnTime(woken + Wakeups(list[..k], ticks + 1), ticks + 1)
  {
    hide Wakeups;
    var t := ticks + 1;
    forall w | w in Wakeups(list[..k], t) ensures w.at == DueAt(w.sleeper) <= t {
      var i :| 0 <= i < k && w == Wakeups(list[..k], t)[i];
      assert w == Wakeup(list[i], t) && list[i] in list;
    }
  }

  /** If the interrupt wakes nobody, nobody was due. */
  lemma NobodyDue(s: State)
    requires Inv(s) && !(s.closest != 0 && s.ticks + 1 >= s.closest)
    ensures Inv(s.(ticks := s.ticks + 1))
  {
    var n := s.(ticks := s.ticks + 1);
    forall x | x in s.list ensures n.ticks < DueAt(x) {
      var i :| 0 <= i < |s.list| && s.list[i] == x;
      assert s.list[0].wake <= x.wake;
    }
  }

  lemma InterruptKeeps(s: State)
    requires Inv(s)
    ensures Inv(Interrupt(s))
  {
    hide Inv, WakeUp;
    if s.closest != 0 && s.ticks + 1 >= s.closest { WakeKeeps(s); } else { NobodyDue(s); }
  }

  // ---------- runs ----------

  datatype Event = TimerSleep(wake: int) | TimerInterrupt

  function Apply(s: State, e: Event): State {
    match e
    case TimerSleep(wake) => Sleep(s, wake)
    case TimerInterrupt => Interrupt(s)
  }

  function Run(s: State, es: seq<Event>): State
    decreases |es|
  {
    if es == [] then s else Run(Apply(s, es[0]), es[1..])
  }

  predicate NonZero(es: seq<Event>) { forall i :: 0 <= i < |es| && es[i].TimerSleep? ==> es[i].wake != 0 }

  lemma {:induction false} RunKeeps(s: State, es: seq<Event>)
    requires Inv(s) && NonZero(es)
    ensures Inv(Run(s, es))
    decreases |es|
  {
    hide Inv, Sleep, Interrupt;
    if es != [] {
      if es[0].TimerSleep? { SleepKeeps(s, es[0].wake); } else { InterruptKeeps(s); }
      RunKeeps(Apply(s, es[0]), es[1..]);
    }
  }

  lemma {:induction false} CountOne(slept: seq<Sleeper>, i: nat)
    requires i < |slept| && forall k :: 0 <= k < |slept| ==> slept[k].id == k
    ensures multiset(slept)[slept[i]] == 1
  {
    assert NoDup(slept);
    CountedOnce(slept, slept[i]);
    assert slept[i] in multiset(slept);
  }

  /** How many sleeps and interrupts a run has. */
  function Sleeps(es: seq<Event>): nat {
    if es == [] then 0 else Sleeps(es[..|es| - 1]) + if es[|es| - 1].TimerSleep? then 1 else 0
  }

  function Interrupts(es: seq<Event>): nat {
    if es == [] then 0 else Interrupts(es[..|es| - 1]) + if es[|es| - 1].TimerInterrupt? then 1 else 0
  }

  /** The call of timer_sleep at P: the wakeup tick is its argument. */
  function Asked(es: seq<Event>, p: nat): Sleeper
    requires p < |es| && es[p].TimerSleep?
  {
    Sleeper(Sleeps(es[..p]), es[p].wake, Interrupts(es[..p]))
  }

  lemma {:induction false} RunSnoc(s: State, es: seq<Event>, e: Event)
    ensures Run(s, es + [e]) == Apply(Run(s, es), e)
    decreases |es|
  {
    hide Apply;
    if es == [] {
      assert (es + [e])[1..] == [];
    } else {
      assert (es + [e])[0] == es[0] && (es + [e])[1..] == es[1..] + [e];
      RunSnoc(Apply(s, es[0]), es[1..], e);
    }
  }

  /** What a run has recorded is what its events asked for. */
  ghost predicate Recorded(s: State, es: seq<Event>) {
    && s.ticks == Interrupts(es) && |s.slept| == Sleeps(es)
    && forall p :: 0 <= p < |es| && es[p].TimerSleep? ==> var i := Sleeps(es[..p]); i < |s.slept| && s.slept[i] == Asked(es, p)
  }

  lemma {:induction false} RunRecords(es: seq<Event>)
    ensures Recorded(Run(Start(), es), es)
    decreases |es|
  {
    hide Run, Recorded;
    if es == [] {
      NothingRecorded();
    } else {
      var fs, e := es[..|es| - 1], es[|es| - 1];
      RunRecords(fs);
      assert es == fs + [e];
      RunSnoc(Start(), fs, e);
      StepRecords(Run(Start(), fs), fs, e);
    }
  }

  lemma NothingRecorded()
    ensures Recorded(Run(Start(), []), []) && Inv(Start())
  {
  }

  lemma StepRecords(s: State, es: seq<Event>, e: Event)
    requires Recorded(s, es)
    ensures Recorded(Apply(s, e), es + [e])
  {
    hide Due, Wakeups, Inserted;
    var fs, n := es + [e], |es|;
    assert fs[..n] == es;
    forall p | 0 <= p < |fs| && fs[p].TimerSleep?
      ensures Sleeps(fs[..p]) < |Apply(s, e).slept| && Apply(s, e).slept[Sleeps(fs[..p])] == Asked(fs, p)
    {
      if p < n { assert fs[..p] == es[..p] && fs[p] == es[p]; }
    }
  }

  /** Every call of timer_sleep is woken exactly once, at the first interrupt after it whose tick reaches the
      wakeup tick it was given; until then it is on the list, and nobody else is there or is woken. */
  lemma WokenOnce(es: seq<Event>, p: nat)
    requires NonZero(es) && p < |es| && es[p].TimerSleep?
    ensures var s, before := Run(Start(), es), Interrupts(es[..p]);
            var x := Sleeper(Sleeps(es[..p]), es[p].wake, before);
            var due := if es[p].wake > before then es[p].wake else before + 1;
            && (if due <= Interrupts(es)
                then Wakeup(x, due) in s.woken && multiset(Sleepers(s.woken))[x] == 1 && x !in s.list
                else x in s.list && multiset(s.list)[x] == 1 && multiset(Sleepers(s.woken))[x] == 0)
            && |s.woken| + |s.list| == Sleeps(es)
  {
    hide Run, ClosestOk, InOrder, Waiting, OnTime, Sleepers;
    NothingRecorded();
    RunKeeps(Start(), es);
    RunRecords(es);
    var s := Run(Start(), es);
    Fate(s, Sleeps(es[..p]));
    assert |multiset(s.slept)| == |multiset(s.list)| + |multiset(Sleepers(s.woken))|;
  }

  lemma Fate(s: State, i: nat)
    requires Inv(s) && i < |s.slept|
    ensures var x := s.slept[i];
            if DueAt(x) <= s.ticks
            then Wakeup(x, DueAt(x)) in s.woken && multiset(Sleepers(s.woken))[x] == 1 && x !in s.list
            else x in s.list && multiset(s.list)[x] == 1 && multiset(Sleepers(s.woken))[x] == 0
  {
    hide ClosestOk, InOrder;
    var x := s.slept[i];
    CountOne(s.slept, i);
    var w := Sleepers(s.woken);
    assert multiset(s.list)[x] + multiset(w)[x] == 1;
    assert x in s.list <==> x in multiset(s.list);
    if x in multiset(w) {
      assert x in w;
      var k :| 0 <= k < |w| && w[k] == x;
      assert s.woken[k] in s.woken && s.woken[k].sleeper == x;
      assert s.woken[k] == Wakeup(x, s.woken[k].at);
    }
  }

  // ---------- the timer's variables ----------

  class Timer {
    var ticks: nat
    var closestTick: int
    var list: seq<Sleeper>
    ghost var slept: seq<Sleeper>
    ghost var woken: seq<Wakeup>

    ghost function View(): State
      reads this
    {
      State(ticks, closestTick, list, slept, woken)
    }

    constructor ()
      ensures View() == Start() && Inv(View())
    {
      ticks, closestTick, list, slept, woken := 0, 0, [], [], [];
    }

    /** The part of timer_sleep that runs with interrupts off, for the thread ID. */
    method GoToSleep(id: nat, wakeupTick: int)
      requires id == |slept|
      modifies this`closestTick, this`list, this`slept
      ensures View() == Sleep(old(View()), wakeupTick)
      ensures slept == old(slept) + [Sleeper(id, wakeupTick, ticks)]
      ensures multiset(list) == multiset(old(list)) + multiset{Sleeper(id, wakeupTick, ticks)}
      ensures closestTick == if old(closestTick) == 0 || wakeupTick < old(closestTick) then wakeupTick else old(closestTick)
    {
      var x := Sleeper(id, wakeupTick, ticks);
      if closestTick == 0 || closestTick > wakeupTick {
        closestTick := wakeupTick;
      }
      list := Inserted(Sooner, list, x);
      slept := slept + [x];
    }

    /** timer_interrupt; WOKE are the threads it unblocks, in order. */
    method OnInterrupt() returns (woke: seq<Sleeper>)
      modifies this`ticks, this`closestTick, this`list, this`woken
      ensures View() == Interrupt(old(View()))
      ensures ticks == old(ticks) + 1 && slept == old(slept) && old(list) == woke + list
      ensures woken == old(woken) + Wakeups(woke, ticks)
      ensures forall i :: 0 <= i < |woke| ==> woke[i].wake <= ticks
      ensures old(closestTick) != 0 && ticks >= old(closestTick) ==>
                (list != [] ==> list[0].wake > ticks) && closestTick == if list == [] then 0 else list[0].wake
      ensures old(closestTick) == 0 || ticks < old(closestTick) ==> woke == [] && closestTick == old(closestTick)
    {
      hide Due, Wakeups, WakeUp;
      ticks := ticks + 1;
      woke := [];
      if closestTick != 0 && ticks >= closestTick {
        woke := WakeUpDue(ticks);
      }
      assert woke == [] ==> woken + Wakeups(woke, ticks) == woken;
    }

    /** wake_up. */
    method WakeUpDue(curTick: nat) returns (woke: seq<Sleeper>)
      modifies this`closestTick, this`list, this`woken
      ensures View() == WakeUp(old(View()), curTick)
      ensures old(list) == woke + list && ticks == old(ticks) && slept == old(slept)
      ensures woken == old(woken) + Wakeups(woke, curTick)
      ensures forall i :: 0 <= i < |woke| ==> woke[i].wake <= curTick
      ensures (list != [] ==> list[0].wake > curTick) && closestTick == if list == [] then 0 else list[0].wake
    {
      hide Due, Wakeups, WakeUp, Inv;
      woke := [];
      ghost var was, all := View(), list;
      while list != [] && list[0].wake <= curTick
        invariant woke + list == all && ticks == old(ticks) && slept == old(slept) && woken == old(woken)
        invariant forall i :: 0 <= i < |woke| ==> woke[i].wake <= curTick
        decreases |list|
      {
        MoveOne(woke, list);
        woke := woke + [list[0]];
        list := list[1..];
      }
      WakeUpIs(was, curTick, woke, list);
      woken := woken + Wakeups(woke, curTick);
      closestTick := if list == [] then 0 else list[0].wake;
    }
  }

  lemma MoveOne(a: seq<Sleeper>, b: seq<Sleeper>)
    requires b != []
    ensures a + [b[0]] + b[1..] == a + b
  {
  }

  lemma DueHere(all: seq<Sleeper>, t: nat, a: seq<Sleeper>, b: seq<Sleeper>)
    requires all == a + b && (forall i :: 0 <= i < |a| ==> a[i].wake <= t) && (b != [] ==> b[0].wake > t)
    ensures Due(all, t) == |a|
  {
    DueIs(all, t, |a|);
  }

  lemma WakeUpIs(s: State, t: nat, a: seq<Sleeper>, b: seq<Sleeper>)
    requires s.list == a + b && (forall i :: 0 <= i < |a| ==> a[i].wake <= t) && (b != [] ==> b[0].wake > t)
    ensures WakeUp(s, t) == s.(list := b, woken := s.woken + Wakeups(a, t), closest := if b == [] then 0 else b[0].wake)
  {
    hide Due, Wakeups;
    Halves(a, b);
    DueHere(s.list, t, a, b);
  }

  lemma Halves(a: seq<Sleeper>, b: seq<Sleeper>)
    ensures (a + b)[..|a|] == a && (a + b)[|a|..] == b
  {
  }

  lemma {:induction false} DueIs(list: seq<Sleeper>, t: int, k: nat)
    requires k <= |list| && (forall i :: 0 <= i < k ==> list[i].wake <= t) && (k < |list| ==> list[k].wake > t)
    ensures Due(list, t) == k
  {
    if k > 0 { DueIs(list[1..], t, k - 1); }
  }
}
