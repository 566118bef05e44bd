/** Counting semaphores (threads/synch.c): every interleaving of their atomic regions. A thread in
    sema_down is either on the waiter list, or woken and about to recheck the value. */
module Semaphore {
  import opened Basics
  import opened ListSpec

  type Tid = nat

  datatype Sema = Sema(value: nat, waiters: seq<Tid>, woken: set<Tid>, ups: nat, downs: nat)

  /** compare_priority, under the priorities of the moment; donation may change them between steps. */
  function PriorityLess(prio: Tid -> int): (Tid, Tid) -> bool {
    (a: Tid, b: Tid) => prio(a) > prio(b)
  }

  lemma PriorityLessWeak(prio: Tid -> int, dom: set<Tid>)
    ensures StrictWeak(PriorityLess(prio), dom)
  {
  }

  /** Where an operation stands when its step begins. */
  datatype Op =
    | Down(t: Tid, prio: Tid -> int)      // the first pass of sema_down
    | Recheck(t: Tid, prio: Tid -> int)   // a later pass, after being woken
    | TryDown(t: Tid)
    | Up(prio: Tid -> int)

  /** Nobody is in two places: a thread starts sema_down only when it is not already inside it. */
  predicate Enabled(s: Sema, op: Op) {
    match op
    case Down(t, _) => t !in s.waiters && t !in s.woken
    case Recheck(t, _) => t in s.woken
    case TryDown(t) => t !in s.waiters && t !in s.woken
    case Up(_) => true
  }

  /** One pass of the loop in sema_down: wait if the value is 0, otherwise take one unit. */
  function Attempt(s: Sema, t: Tid, prio: Tid -> int): Sema {
    if s.value == 0 then
      s.(waiters := Inserted(PriorityLess(prio), s.waiters, t), woken := s.woken - {t})
    else
      s.(value := s.value - 1, woken := s.woken - {t}, downs := s.downs + 1)
  }

  /** The waiters after the list_sort in sema_up. */
  function Queue(waiters: seq<Tid>, prio: Tid -> int): (w: seq<Tid>)
    ensures |w| == |waiters|
  {
    var dom := set t | t in waiters;
    PriorityLessWeak(prio, dom);
    SortCorrect(PriorityLess(prio), waiters, dom);
    var w := Sort(PriorityLess(prio), waiters, dom);
    assert |multiset(w)| == |multiset(waiters)|;
    w
  }

  function Wake(s: Sema, prio: Tid -> int): Sema {
    if |s.waiters| == 0 then s
    else
      var w := Queue(s.waiters, prio);
      s.(waiters := w[1..], woken := s.woken + {w[0]})
  }

  function Apply(s: Sema, op: Op): Sema {
    match op
    case Down(t, prio) => Attempt(s, t, prio)
    case Recheck(t, prio) => Attempt(s, t, prio)
    case TryDown(t) => if s.value > 0 then s.(value := s.value - 1, downs := s.downs + 1) else s
    case Up(prio) => Wake(s, prio).(value := s.value + 1, ups := s.ups + 1)
  }

  ghost predicate Inv(s: Sema, initial: nat) {
    && initial + s.ups == s.value + s.downs
    && NoDup(s.waiters)
    && (forall t :: t in s.waiters ==> t !in s.woken)
    && (|s.waiters| > 0 ==> s.value <= |s.woken|)
  }

  // ---------- waking ----------

  /** sema_up with waiters present takes exactly one off the list: of those with the highest priority, the
      one that stood first. */
  lemma WakeHighest(s: Sema, prio: Tid -> int) returns (w: Tid)
    requires |s.waiters| > 0 && NoDup(s.waiters)
    ensures w in s.waiters && (forall t :: t in s.waiters ==> prio(t) <= prio(w))
    ensures forall i, j :: 0 <= j < i < |s.waiters| && s.waiters[i] == w ==> prio(s.waiters[j]) < prio(w)
    ensures var s' := Wake(s, prio);
            && s'.woken == s.woken + {w} && s' == s.(waiters := s'.waiters, woken := s'.woken)
            && NoDup(s'.waiters) && (forall t :: t in s'.waiters <==> t in s.waiters && t != w)
  {
    hide NoDup, Queue;
    var v := Queue(s.waiters, prio);
    var k := QueueFirst(s.waiters, prio);
    SameItems(s.waiters, v);
    w := v[0];
    TailNoDup(v);
    FirstOnly(s.waiters, k);
  }

  /** Of the waiters with the highest priority the one that stood first, at place I, is off the list. */
  ghost predicate Woke(s: Sema, s': Sema, prio: Tid -> int, i: nat)
    requires i < |s.waiters|
  {
    && (forall j :: 0 <= j < |s.waiters| ==> prio(s.waiters[j]) <= prio(s.waiters[i]))
    && (forall j :: 0 <= j < i ==> prio(s.waiters[j]) < prio(s.waiters[i]))
    && s'.woken == s.woken + {s.waiters[i]}
    && multiset(s'.waiters) == multiset(s.waiters) - multiset{s.waiters[i]}
  }

  lemma UpWakes(s: Sema, prio: Tid -> int)
    requires s.waiters != []
    ensures exists i :: 0 <= i < |s.waiters| && Woke(s, Apply(s, Up(prio)), prio, i)
  {
    hide Queue;
    var i := QueueFirst(s.waiters, prio);
    TailItems(Queue(s.waiters, prio));
    assert Woke(s, Apply(s, Up(prio)), prio, i);
  }

  /** Sorting puts the first of the waiters with the highest priority in front. */
  lemma QueueFirst(w: seq<Tid>, prio: Tid -> int) returns (k: nat)
    requires w != []
    ensures multiset(Queue(w, prio)) == multiset(w) && k < |w| && w[k] == Queue(w, prio)[0]
    ensures forall t :: t in w ==> prio(t) <= prio(w[k])
    ensures forall j :: 0 <= j < k ==> prio(w[j]) < prio(w[k])
  {
    hide StrictWeak, Sorted, StableFor;
    var dom := set t | t in w;
    PriorityLessWeak(prio, dom);
    SortCorrect(PriorityLess(prio), w, dom);
    k := FrontFirst(PriorityLess(prio), w, Queue(w, prio), dom);
    forall t | t in w ensures prio(t) <= prio(w[k]) {
      var j :| 0 <= j < |w| && w[j] == t;
      assert !PriorityLess(prio)(w[j], w[k]);
    }
  }

  lemma FirstOnly(w: seq<Tid>, k: nat)
    requires NoDup(w) && k < |w|
    ensures forall i :: 0 <= i < |w| && w[i] == w[k] ==> i == k
  {
  }

  // ---------- every step ----------

  lemma AttemptKeeps(s: Sema, t: Tid, prio: Tid -> int, initial: nat)
    requires Inv(s, initial) && t !in s.waiters
    ensures Inv(Attempt(s, t, prio), initial)
  {
    hide NoDup, Inserted;
    var s' := Attempt(s, t, prio);
    assert s.woken <= (s.woken - {t}) + {t};
    if s.value == 0 {
      JoinNoDup(s.waiters, s'.waiters, t);
    }
  }

  lemma ApplyKeeps(s: Sema, op: Op, initial: nat)
    requires Inv(s, initial) && Enabled(s, op)
    ensures Inv(Apply(s, op), initial)
  {
    hide NoDup, Wake;
    match op
    case Down(t, prio) =>
      AttemptKeeps(s, t, prio, initial);
    case Recheck(t, prio) =>
      AttemptKeeps(s, t, prio, initial);
    case TryDown(t) =>
    case Up(prio) =>
      if |s.waiters| > 0 {
        var w := WakeHighest(s, prio);
        assert w !in s.woken;
      } else {
        WakeNobody(s, prio);
      }
  }

  lemma WakeNobody(s: Sema, prio: Tid -> int)
    requires |s.waiters| == 0
    ensures Wake(s, prio) == s
  {
  }

  // ---------- every interleaving ----------

  function Run(s: Sema, ops: seq<Op>): Sema
    decreases |ops|
  {
    if |ops| == 0 then s else Run(Apply(s, ops[0]), ops[1..])
  }

  predicate Runnable(s: Sema, ops: seq<Op>)
    decreases |ops|
  {
    |ops| > 0 ==> Enabled(s, ops[0]) && Runnable(Apply(s, ops[0]), ops[1..])
  }

  /** sema_init. */
  function Init(value: nat): Sema { Sema(value, [], {}, 0, 0) }

  lemma {:induction false} RunKeeps(s: Sema, ops: seq<Op>, initial: nat)
    requires Inv(s, initial) && Runnable(s, ops)
    ensures Inv(Run(s, ops), initial)
    decreases |ops|
  {
    hide Inv, Apply, Enabled;
    if |ops| > 0 {
      ApplyKeeps(s, ops[0], initial);
      RunKeeps(Apply(s, ops[0]), ops[1..], initial);
    }
  }

  /** In every interleaving the units balance, and no wakeup is lost: while somebody waits and units
      are available, as many threads as there are units have been woken and will recheck. */
  lemma EveryInterleaving(initial: nat, ops: seq<Op>)
    requires Runnable(Init(initial), ops)
    ensures var s := Run(Init(initial), ops);
            && initial + s.ups == s.value + s.downs
            && (|s.waiters| > 0 ==> s.value <= |s.woken|)
            && (|s.waiters| > 0 && s.value > 0 ==> exists t :: t in s.woken && Enabled(s, Recheck(t, x => 0)))
  {
    RunKeeps(Init(initial), ops, initial);
    var s := Run(Init(initial), ops);
    if |s.waiters| > 0 && s.value > 0 {
      assert s.woken != {};
      var t :| t in s.woken;
      assert Enabled(s, Recheck(t, x => 0));
    }
  }

  // ---------- finishing ----------

  function Ups(prio: Tid -> int, n: nat): seq<Op>
    decreases n
  {
    if n == 0 then [] else [Up(prio)] + Ups(prio, n - 1)
  }

  /** The waiters that must be woken before T, and those that may be. */
  function Higher(s: Sema, t: Tid, prio: Tid -> int): set<Tid> {
    set w | w in s.waiters && prio(w) > prio(t)
  }

  function Rivals(s: Sema, t: Tid, prio: Tid -> int): set<Tid> {
    set w | w in s.waiters && w != t && prio(w) >= prio(t)
  }

  /** Each sema_up wakes one waiter in priority order: T is still waiting while there have been no more
      than there are higher waiters, and is woken once there are more than there are rivals. */
  lemma {:induction false} WokenInTurn(s: Sema, t: Tid, prio: Tid -> int, initial: nat, n: nat)
    requires Inv(s, initial) && t in s.waiters
    ensures Runnable(s, Ups(prio, n)) && Run(s, Ups(prio, n)).value == s.value + n
    ensures n <= |Higher(s, t, prio)| ==> t in Run(s, Ups(prio, n)).waiters
    ensures n > |Rivals(s, t, prio)| ==> t in Run(s, Ups(prio, n)).woken
    decreases n
  {
    hide NoDup, Wake, Inv, Higher, Rivals, Apply, Run, Runnable;
    UpsUnfold(s, prio, n);
    if n > 0 {
      var s' := Apply(s, Up(prio));
      ApplyKeeps(s, Up(prio), initial);
      var w := OneUp(s, t, prio, initial);
      if w == t {
        StaysWoken(s', t, prio, initial, n - 1);
      } else {
        WokenInTurn(s', t, prio, initial, n - 1);
      }
    }
  }

  lemma UpsUnfold(s: Sema, prio: Tid -> int, n: nat)
    ensures n == 0 ==> Runnable(s, Ups(prio, n)) && Run(s, Ups(prio, n)) == s
    ensures n > 0 ==> Run(s, Ups(prio, n)) == Run(Apply(s, Up(prio)), Ups(prio, n - 1))
    ensures n > 0 ==> (Runnable(s, Ups(prio, n)) <==> Runnable(Apply(s, Up(prio)), Ups(prio, n - 1)))
  {
    hide Apply;
    if n > 0 {
      assert Ups(prio, n)[0] == Up(prio) && Ups(prio, n)[1..] == Ups(prio, n - 1);
    }
  }

  /** One sema_up brings T nearer to the front of the queue, or wakes it. */
  lemma OneUp(s: Sema, t: Tid, prio: Tid -> int, initial: nat) returns (w: Tid)
    requires Inv(s, initial) && t in s.waiters
    ensures var s' := Apply(s, Up(prio));
            && s'.value == s.value + 1
            && (w == t ==> t in s'.woken && Higher(s, t, prio) == {})
            && (w != t ==> t in s'.waiters)
            && (w != t ==> |Rivals(s', t, prio)| == |Rivals(s, t, prio)| - 1)
            && (w != t ==> |Higher(s, t, prio)| <= |Higher(s', t, prio)| + 1)
  {
    hide NoDup, Wake;
    var s' := Apply(s, Up(prio));
    w := WakeHighest(s, prio);
    if w != t {
      assert Rivals(s', t, prio) == Rivals(s, t, prio) - {w} && w in Rivals(s, t, prio);
      assert Higher(s, t, prio) <= Higher(s', t, prio) + {w};
      SubsetSize(Higher(s, t, prio), Higher(s', t, prio) + {w});
    }
  }

  lemma {:induction false} StaysWoken(s: Sema, t: Tid, prio: Tid -> int, initial: nat, n: nat)
    requires Inv(s, initial) && t in s.woken
    ensures Runnable(s, Ups(prio, n))
    ensures var r := Run(s, Ups(prio, n)); t in r.woken && r.value == s.value + n
    decreases n
  {
    hide NoDup, Inv, Run, Runnable;
    UpsUnfold(s, prio, n);
    if n > 0 {
      ApplyKeeps(s, Up(prio), initial);
      StaysWoken(Apply(s, Up(prio)), t, prio, initial, n - 1);
    }
  }

  lemma {:induction false} SubsetSize<T>(a: set<T>, b: set<T>)
    requires a <= b
    ensures |a| <= |b|
  {
    if a != {} {
      var x :| x in a;
      SubsetSize(a - {x}, b - {x});
    }
  }

  lemma {:induction false} RunJoin(s: Sema, v: seq<Op>, w: seq<Op>)
    requires Runnable(s, v) && Runnable(Run(s, v), w)
    ensures Runnable(s, v + w) && Run(s, v + w) == Run(Run(s, v), w)
    decreases |v|
  {
    hide Apply, Enabled;
    if |v| == 0 {
      assert v + w == w;
    } else {
      assert (v + w)[0] == v[0] && (v + w)[1..] == v[1..] + w;
      RunJoin(Apply(s, v[0]), v[1..], w);
    }
  }

  /** No thread inside sema_down is stuck: whatever the state, one more sema_up than it has rivals, and
      its own recheck, complete its down with exactly one unit taken and nothing else kept back. */
  lemma WaiterCanFinish(s: Sema, t: Tid, prio: Tid -> int, initial: nat)
    requires Inv(s, initial) && (t in s.waiters || t in s.woken)
    ensures var ops := Ups(prio, |Rivals(s, t, prio)| + 1) + [Recheck(t, prio)];
            && Runnable(s, ops)
            && var r := Run(s, ops);
               t !in r.waiters && t !in r.woken && r.downs == s.downs + 1 && r.value == s.value + |Rivals(s, t, prio)|
  {
    hide NoDup, Inserted, Wake;
    var n := |Rivals(s, t, prio)| + 1;
    if t in s.waiters {
      WokenInTurn(s, t, prio, initial, n);
    } else {
      StaysWoken(s, t, prio, initial, n);
    }
    var m := Run(s, Ups(prio, n));
    RunKeeps(s, Ups(prio, n), initial);
    UpsTakeNothing(s, prio, n);
    assert Run(m, [Recheck(t, prio)]) == Apply(m, Recheck(t, prio));
    RunJoin(s, Ups(prio, n), [Recheck(t, prio)]);
  }

  lemma {:induction false} UpsTakeNothing(s: Sema, prio: Tid -> int, n: nat)
    ensures Run(s, Ups(prio, n)).downs == s.downs
    decreases n
  {
    hide Run, Runnable, Queue;
    UpsUnfold(s, prio, n);
    if n > 0 {
      UpsTakeNothing(Apply(s, Up(prio)), prio, n - 1);
    }
  }

  // ---------- the mutable form ----------

  class SemaphoreObject {
    var value: nat
    var waiters: seq<Tid>
    ghost var woken: set<Tid>
    ghost var ups: nat
    ghost var downs: nat

    ghost function View(): Sema
      reads this
    {
      Sema(value, waiters, woken, ups, downs)
    }

    constructor (initial: nat)
      ensures View() == Init(initial) && Inv(View(), initial)
    {
      value, waiters := initial, [];
      woken, ups, downs := {}, 0, 0;
    }

    /** One pass of sema_down; the caller blocks and comes back when it returns true. */
    method DownPass(t: Tid, prio: Tid -> int, ghost initial: nat) returns (blocks: bool)
      requires Inv(View(), initial) && (Enabled(View(), Down(t, prio)) || Enabled(View(), Recheck(t, prio)))
      modifies this
      ensures View() == Attempt(old(View()), t, prio) && Inv(View(), initial)
      ensures blocks <==> old(value) == 0
      ensures blocks <==> t in waiters
      ensures ups == old(ups) && woken == old(woken) - {t}
      ensures blocks ==> value == 0 && downs == old(downs) && multiset(waiters) == multiset(old(waiters)) + multiset{t}
      ensures !blocks ==> value == old(value) - 1 && downs == old(downs) + 1 && waiters == old(waiters)
    {
      hide NoDup, Inserted, Inv;
      NotWaiting(View(), t, prio, initial);
      AttemptKeeps(View(), t, prio, initial);
      AttemptWaiters(View(), t, prio);
      blocks := value == 0;
      if blocks {
        waiters := Inserted(PriorityLess(prio), waiters, t);
      } else {
        value := value - 1;
        downs := downs + 1;
      }
      woken := woken - {t};
    }

    method SemaTryDown(t: Tid, ghost initial: nat) returns (success: bool)
      requires Inv(View(), initial) && Enabled(View(), TryDown(t))
      modifies this
      ensures View() == Apply(old(View()), TryDown(t)) && Inv(View(), initial)
      ensures success <==> old(value) > 0
      ensures value == (if success then old(value) - 1 else 0) && downs == (if success then old(downs) + 1 else old(downs))
      ensures waiters == old(waiters) && woken == old(woken) && ups == old(ups)
    {
      ApplyKeeps(View(), TryDown(t), initial);
      success := value > 0;
      if success {
        value := value - 1;
        downs := downs + 1;
      }
    }

    method SemaUp(prio: Tid -> int, ghost initial: nat)
      requires Inv(View(), initial)
      modifies this
      ensures View() == Apply(old(View()), Up(prio)) && Inv(View(), initial)
      ensures value == old(value) + 1 && ups == old(ups) + 1 && downs == old(downs)
      ensures old(waiters) == [] ==> waiters == [] && woken == old(woken)
      ensures old(waiters) != [] ==> exists i :: 0 <= i < |old(waiters)| && Woke(old(View()), View(), prio, i)
    {
      hide Inv, Queue, Woke;
      if waiters != [] {
        UpWakes(View(), prio);
      }
      ApplyKeeps(View(), Up(prio), initial);
      if |waiters| > 0 {
        var w := Queue(waiters, prio);
        woken := woken + {w[0]};
        waiters := w[1..];
      }
      value := value + 1;
      ups := ups + 1;
    }
  }

  lemma NotWaiting(s: Sema, t: Tid, prio: Tid -> int, initial: nat)
    requires Inv(s, initial) && (Enabled(s, Down(t, prio)) || Enabled(s, Recheck(t, prio)))
    ensures t !in s.waiters
  {
  }

  lemma AttemptWaiters(s: Sema, t: Tid, prio: Tid -> int)
    requires t !in s.waiters
    ensures t in Attempt(s, t, prio).waiters <==> s.value == 0
  {
    if s.value == 0 {
      assert t in multiset(Attempt(s, t, prio).waiters);
    }
  }
}
