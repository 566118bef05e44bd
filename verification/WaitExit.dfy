/** The handshake between a parent in process_wait and its exiting children (userprog/process.c), as a state
    machine whose steps are the parent's and the children's accesses to the shared child page. */
module WaitExit {
  import opened Basics

  /** Where a child is in its life. Its page can be reused once it is FREED. */
  datatype Phase =
    | Running
    | Exiting      // past sema_up (&wait_sema), at sema_down (&free_sema)
    | Dying        // on the destruction list, or about to be
    | Freed

  /** The fields of a child's struct thread that the handshake uses. */
  datatype Child = Child(phase: Phase, exitStatus: int, waitSema: nat, freeSema: nat)

  /** Where the parent is in process_wait. */
  datatype Pc =
    | Outside
    | Down(child: nat)                    // at sema_down (&child->wait_sema)
    | Read(child: nat)                    // about to read exit_status
    | Unlink(child: nat, status: int)     // about to remove the child from children_list
    | Up(child: nat, status: int)         // about to raise free_sema and return

  /** One finished process_wait: its argument, whether it got to wait, and what it returned. */
  datatype Call = Call(tid: nat, waited: bool, result: int)

  datatype State = State(nextTid: nat, children: map<nat, Child>, list: seq<nat>, pc: Pc, calls: seq<Call>)

  datatype Step =
    | Create                              // the parent starts a child
    | Wait(tid: nat)                      // the parent calls process_wait
    | Advance                             // the parent takes its next step inside process_wait
    | SetStatus(child: nat, status: int)  // a running child records its status
    | Exit(child: nat)                    // sema_up (&wait_sema)
    | Leave(child: nat)                   // sema_down (&free_sema) completes
    | Free(child: nat)                    // the scheduler frees the page

  /** What process_wait makes of a status. */
  function Clip(status: int): int { if status < 0 then -1 else status }

  /** The child whose page the parent is about to touch. */
  function Held(pc: Pc): Option<nat> {
    match pc
    case Outside => None
    case Down(c) => Some(c)
    case Read(c) => Some(c)
    case Unlink(c, _) => Some(c)
    case Up(c, _) => Some(c)
  }

  ghost predicate Enabled(s: State, e: Step) {
    match e
    case Create => s.pc.Outside?
    case Wait(_) => s.pc.Outside?
    case Advance =>
      Held(s.pc).Some? && Held(s.pc).value in s.children
      && (s.pc.Down? ==> s.children[s.pc.child].waitSema > 0)
    case SetStatus(c, _) => c in s.children && s.children[c].phase.Running?
    case Exit(c) => c in s.children && s.children[c].phase.Running?
    case Leave(c) => c in s.children && s.children[c].phase.Exiting? && s.children[c].freeSema > 0
    case Free(c) => c in s.children && s.children[c].phase.Dying?
  }

  /** list_remove. */
  function Remove(l: seq<nat>, c: nat): seq<nat> {
    if l == [] then [] else if l[0] == c then l[1..] else [l[0]] + Remove(l[1..], c)
  }

  function Put(s: State, c: nat, r: Child): State { s.(children := s.children[c := r]) }

  /** One step of process_wait. */
  function AdvanceWait(s: State): State
    requires Enabled(s, Advance)
  {
    match s.pc
    case Outside => s
    case Down(c) => Put(s, c, s.children[c].(waitSema := s.children[c].waitSema - 1)).(pc := Read(c))
    case Read(c) => s.(pc := Unlink(c, s.children[c].exitStatus))
    case Unlink(c, status) => s.(list := Remove(s.list, c), pc := Up(c, status))
    case Up(c, status) =>
      Put(s, c, s.children[c].(freeSema := s.children[c].freeSema + 1))
        .(pc := Outside, calls := s.calls + [Call(c, true, Clip(status))])
  }

  function Apply(s: State, e: Step): State
    requires Enabled(s, e)
  {
    match e
    case Create =>
      Put(s, s.nextTid, Child(Running, 0, 0, 0)).(nextTid := s.nextTid + 1, list := s.list + [s.nextTid])
    case Wait(tid) =>
      if tid in s.list then s.(pc := Down(tid)) else s.(calls := s.calls + [Call(tid, false, -1)])
    case Advance => AdvanceWait(s)
    case SetStatus(c, status) => Put(s, c, s.children[c].(exitStatus := status))
    case Exit(c) => Put(s, c, s.children[c].(phase := Exiting, waitSema := s.children[c].waitSema + 1))
    case Leave(c) => Put(s, c, s.children[c].(phase := Dying, freeSema := s.children[c].freeSema - 1))
    case Free(c) => Put(s, c, s.children[c].(phase := Freed))
  }

  // ---------- the invariant ----------

  /** The child's semaphores, its place on the list and the parent's position always fit together. */
  ghost predicate ChildOk(s: State, c: nat)
    requires c in s.children
  {
    var r := s.children[c];
    match r.phase
    case Running =>
      && r.waitSema == 0 && r.freeSema == 0 && c in s.list && (Held(s.pc) == Some(c) ==> s.pc.Down?)
      && !Waited(s.calls, c)
    case Exiting =>
      if Waited(s.calls, c) then r.waitSema == 0 && r.freeSema == 1 && c !in s.list && Held(s.pc) != Some(c)
      else if Held(s.pc) == Some(c) && !s.pc.Down? then r.waitSema == 0 && r.freeSema == 0 && (c in s.list <==> !s.pc.Up?)
      else r.waitSema == 1 && r.freeSema == 0 && c in s.list
    case _ =>
      r.waitSema == 0 && r.freeSema == 0 && c !in s.list && Held(s.pc) != Some(c) && Waited(s.calls, c)
  }

  /** A call for C has waited for it and returned. */
  ghost predicate Waited(calls: seq<Call>, c: nat) {
    exists k :: 0 <= k < |calls| && calls[k].tid == c && calls[k].waited
  }

  /** What the parent carries with it, and what it has answered so far. */
  ghost predicate ParentOk(s: State) {
    && (Held(s.pc).Some? ==> Held(s.pc).value in s.children)
    && (s.pc.Unlink? || s.pc.Up? ==> s.pc.status == s.children[s.pc.child].exitStatus)
    && (forall c :: c in s.children ==> c < s.nextTid)
    && (forall c :: c in s.list ==> c in s.children)
    && NoDup(s.list)
  }

  ghost predicate CallOk(s: State, k: nat)
    requires k < |s.calls|
  {
    var call := s.calls[k];
    if call.waited then call.tid in s.children && call.result == Clip(s.children[call.tid].exitStatus)
                        && !s.children[call.tid].phase.Running?
    else call.result == -1
  }

  ghost predicate Inv(s: State) {
    && ParentOk(s)
    && (forall c :: c in s.children ==> ChildOk(s, c))
    && (forall k :: 0 <= k < |s.calls| ==> CallOk(s, k))
    && (forall j, k :: 0 <= j < k < |s.calls| && s.calls[j].waited && s.calls[k].waited ==> s.calls[j].tid != s.calls[k].tid)
  }

  // ---------- what it gives ----------

  /** Whenever process_wait touches a child's page, the page has not been freed, nor can it be freed before
      process_wait is done with it. */
  lemma HeldNotFreed(s: State)
    requires Inv(s) && Held(s.pc).Some?
    ensures var c := Held(s.pc).value; c in s.children && (s.children[c].phase.Running? || s.children[c].phase.Exiting?)
    ensures !Enabled(s, Leave(Held(s.pc).value)) && !Enabled(s, Free(Held(s.pc).value))
  {
    var c := Held(s.pc).value;
    assert ChildOk(s, c);
  }

  /** process_wait is past its sema_down only when the child has exited, so its status is final. */
  lemma StatusIsFinal(s: State)
    requires Inv(s) && Held(s.pc).Some? && !s.pc.Down?
    ensures var c := Held(s.pc).value; c in s.children && s.children[c].phase.Exiting?
    ensures forall status :: !Enabled(s, SetStatus(Held(s.pc).value, status))
  {
    var c := Held(s.pc).value;
    assert ChildOk(s, c);
  }

  /** A call waits exactly for a child that has been created and not been waited for; any other answers -1
      at once. */
  lemma WaitsIff(s: State, tid: nat)
    requires Inv(s) && s.pc.Outside?
    ensures Apply(s, Wait(tid)) ==
      if tid in s.children && !Waited(s.calls, tid) then s.(pc := Down(tid))
      else s.(calls := s.calls + [Call(tid, false, -1)])
  {
    hide Waited;
    if tid in s.children { assert ChildOk(s, tid); }
  }

  /** After a completed wait for TID, another call returns -1 at once and changes nothing else. */
  lemma SecondWait(s: State, tid: nat)
    requires Inv(s) && Waited(s.calls, tid) && s.pc.Outside?
    ensures Apply(s, Wait(tid)) == s.(calls := s.calls + [Call(tid, false, -1)])
  {
    var k :| 0 <= k < |s.calls| && s.calls[k].tid == tid && s.calls[k].waited;
    assert CallOk(s, k);
    assert ChildOk(s, tid);
  }

  /** A child's page is freed only after a process_wait for it has returned. */
  lemma FreedWasWaitedFor(s: State, c: nat)
    requires Inv(s) && c in s.children && s.children[c].phase.Freed?
    ensures Waited(s.calls, c)
  {
    assert ChildOk(s, c);
  }

  // ---------- every step keeps the invariant ----------

  lemma {:induction false} RemoveFacts(l: seq<nat>, c: nat)
    requires NoDup(l)
    ensures var r := Remove(l, c);
            && (forall x :: x in r <==> x in l && x != c) && NoDup(r)
  {
    if l != [] {
      var t := l[1..];
      TailNoDup(l);
      RemoveFacts(t, c);
      assert l == [l[0]] + t;
    }
  }

  lemma WaitedMore(calls: seq<Call>, k: Call, c: nat)
    ensures Waited(calls + [k], c) <==> Waited(calls, c) || (k.tid == c && k.waited)
  {
    var r := calls + [k];
    if Waited(calls, c) {
      var i :| 0 <= i < |calls| && calls[i].tid == c && calls[i].waited;
      assert r[i].tid == c;
    }
    if k.tid == c && k.waited { assert r[|calls|].waited; }
  }

  /** A step that touches one child and leaves the parent alone. */
  lemma ChildStepKeeps(s: State, c: nat, r: Child)
    requires Inv(s) && c in s.children
    requires ChildOk(Put(s, c, r), c)
    requires r.exitStatus == s.children[c].exitStatus || s.children[c].phase.Running?
    requires r.phase.Running? ==> s.children[c].phase.Running?
    ensures Inv(Put(s, c, r))
  {
    hide Waited;
    var n := Put(s, c, r);
    assert ChildOk(s, c);
    forall d | d in n.children ensures ChildOk(n, d) {
      assert ChildOk(s, d);
    }
    forall k | 0 <= k < |n.calls| ensures CallOk(n, k) {
      assert CallOk(s, k);
    }
  }

  lemma NextIsNew(s: State)
    requires Inv(s)
    ensures s.nextTid !in s.children && s.nextTid !in s.list && !Waited(s.calls, s.nextTid)
  {
    forall k | 0 <= k < |s.calls| && s.calls[k].waited ensures s.calls[k].tid < s.nextTid {
      assert CallOk(s, k);
    }
  }

  lemma CreateKeeps(s: State)
    requires Inv(s) && s.pc.Outside?
    ensures Inv(Apply(s, Create))
  {
    var n := Apply(s, Create);
    var c := s.nextTid;
    NextIsNew(s);
    hide Waited;
    forall d | d in n.children ensures ChildOk(n, d) {
      if d != c { assert ChildOk(s, d); }
    }
    forall k | 0 <= k < |n.calls| ensures CallOk(n, k) {
      assert CallOk(s, k);
    }
  }

  lemma WaitKeeps(s: State, tid: nat)
    requires Inv(s) && s.pc.Outside?
    ensures Inv(Apply(s, Wait(tid)))
  {
    hide Waited;
    var n := Apply(s, Wait(tid));
    WaitedAll(s.calls, Call(tid, false, -1));
    forall d | d in n.children ensures ChildOk(n, d) {
      assert ChildOk(s, d);
    }
    forall k | 0 <= k < |n.calls| ensures CallOk(n, k) {
      if k < |s.calls| { assert CallOk(s, k); }
    }
  }

  lemma WaitedAll(calls: seq<Call>, k: Call)
    ensures forall c :: Waited(calls + [k], c) <==> Waited(calls, c) || (k.tid == c && k.waited)
  {
    hide Waited;
    forall c ensures Waited(calls + [k], c) <==> Waited(calls, c) || (k.tid == c && k.waited) {
      WaitedMore(calls, k, c);
    }
  }

  /** A child whose record, list entry and finished waits are as before, and which the parent does not hold. */
  lemma OtherChild(s: State, n: State, d: nat)
    requires d in s.children && ChildOk(s, d) && d in n.children && n.children[d] == s.children[d]
    requires Held(s.pc) != Some(d) && Held(n.pc) != Some(d)
    requires (d in n.list <==> d in s.list) && (Waited(n.calls, d) <==> Waited(s.calls, d))
    ensures ChildOk(n, d)
  {
    hide Waited;
  }

  lemma AdvanceKeeps(s: State)
    requires Inv(s) && Enabled(s, Advance)
    ensures Inv(Apply(s, Advance))
  {
    hide Waited, ChildOk, Remove;
    var n := Apply(s, Advance);
    var c := Held(s.pc).value;
    AdvanceOwn(s);
    RemoveFacts(s.list, c);
    if s.pc.Up? { WaitedAll(s.calls, Call(c, true, Clip(s.pc.status))); }
    forall d | d in n.children ensures ChildOk(n, d) {
      if d != c { OtherChild(s, n, d); }
    }
    AdvanceCalls(s);
  }

  lemma AdvanceOwn(s: State)
    requires Inv(s) && Enabled(s, Advance)
    ensures var c := Held(s.pc).value; var n := Apply(s, Advance); ParentOk(n) && c in n.children && ChildOk(n, c)
  {
    hide Waited, Remove, CallOk;
    var c := Held(s.pc).value;
    assert ChildOk(s, c);
    RemoveFacts(s.list, c);
    if s.pc.Up? { WaitedAll(s.calls, Call(c, true, Clip(s.pc.status))); }
  }

  lemma AdvanceCalls(s: State)
    requires Inv(s) && Enabled(s, Advance)
    ensures var n := Apply(s, Advance);
            && (forall k :: 0 <= k < |n.calls| ==> CallOk(n, k))
            && (forall j, k :: 0 <= j < k < |n.calls| && n.calls[j].waited && n.calls[k].waited ==> n.calls[j].tid != n.calls[k].tid)
  {
    hide Waited, Remove;
    var n := Apply(s, Advance);
    var c := Held(s.pc).value;
    assert ChildOk(s, c);
    if s.pc.Up? { NotYet(s.calls, c); }
    forall k | 0 <= k < |n.calls| ensures CallOk(n, k) {
      if k < |s.calls| { assert CallOk(s, k); }
    }
  }

  lemma NotYet(calls: seq<Call>, c: nat)
    requires !Waited(calls, c)
    ensures forall k :: 0 <= k < |calls| && calls[k].waited ==> calls[k].tid != c
  {
  }

  lemma StepKeeps(s: State, e: Step)
    requires Inv(s) && Enabled(s, e)
    ensures Inv(Apply(s, e))
  {
    hide Waited;
    match e
    case Create => CreateKeeps(s);
    case Wait(tid) => WaitKeeps(s, tid);
    case Advance => AdvanceKeeps(s);
    case SetStatus(c, status) =>
      assert ChildOk(s, c);
      ChildStepKeeps(s, c, s.children[c].(exitStatus := status));
    case Exit(c) =>
      assert ChildOk(s, c);
      ChildStepKeeps(s, c, s.children[c].(phase := Exiting, waitSema := s.children[c].waitSema + 1));
    case Leave(c) =>
      assert ChildOk(s, c);
      ChildStepKeeps(s, c, s.children[c].(phase := Dying, freeSema := s.children[c].freeSema - 1));
    case Free(c) =>
      assert ChildOk(s, c);
      ChildStepKeeps(s, c, s.children[c].(phase := Freed));
  }

  // ---------- runs ----------

  ghost predicate IsRun(s: State, es: seq<Step>)
    decreases |es|
  {
    es == [] || (Enabled(s, es[0]) && IsRun(Apply(s, es[0]), es[1..]))
  }

  ghost function End(s: State, es: seq<Step>): State
    requires IsRun(s, es)
    decreases |es|
  {
    if es == [] then s else End(Apply(s, es[0]), es[1..])
  }

  function Start(nextTid: nat): State { State(nextTid, map[], [], Outside, []) }

  lemma {:induction false} RunKeeps(s: State, es: seq<Step>)
    requires Inv(s) && IsRun(s, es)
    ensures Inv(End(s, es))
    decreases |es|
  {
    hide Inv, Enabled, Apply;
    if es != [] {
      StepKeeps(s, es[0]);
      RunKeeps(Apply(s, es[0]), es[1..]);
    }
  }

  // ---------- the answers, from the history alone ----------

  /** How many children have been created. */
  function Created(es: seq<Step>): nat {
    if es == [] then 0 else Created(es[..|es| - 1]) + if es[|es| - 1].Create? then 1 else 0
  }

  /** The status child C recorded last; 0 if none. */
  function LastStatus(es: seq<Step>, c: nat): int {
    if es == [] then 0
    else match es[|es| - 1]
      case SetStatus(d, status) => if d == c then status else LastStatus(es[..|es| - 1], c)
      case _ => LastStatus(es[..|es| - 1], c)
  }

  /** One call of process_wait: FIRST if it is the first one for a child that existed by then. */
  datatype Ask = Ask(tid: nat, first: bool)

  /** The calls in order; the children have the numbers from BASE on. */
  function Asks(es: seq<Step>, base: nat): seq<Ask> {
    if es == [] then []
    else
      var before := es[..|es| - 1];
      var asks := Asks(before, base);
      match es[|es| - 1]
      case Wait(tid) => asks + [Ask(tid, base <= tid < base + Created(before) && !Asked(asks, tid))]
      case _ => asks
  }

  predicate Asked(asks: seq<Ask>, tid: nat) { exists j :: 0 <= j < |asks| && asks[j] == Ask(tid, true) }

  ghost predicate OnceEach(a: seq<Ask>) {
    forall j, k :: 0 <= j < k < |a| && a[j].first && a[k].first ==> a[j].tid != a[k].tid
  }

  lemma OnceMore(a: seq<Ask>, x: Ask)
    requires OnceEach(a) && (x.first ==> !Asked(a, x.tid))
    ensures OnceEach(a + [x])
  {
    forall j | 0 <= j < |a| && a[j].first && x.first ensures a[j].tid != x.tid {
      assert a[j] == Ask(a[j].tid, true);
    }
  }

  lemma {:induction false} FirstOnce(es: seq<Step>, base: nat)
    ensures OnceEach(Asks(es, base))
  {
    hide OnceEach, Asked;
    if es == [] {
      assert OnceEach([]) by { NoAsks(); }
    } else {
      var before, e := es[..|es| - 1], es[|es| - 1];
      FirstOnce(before, base);
      var b := Asks(before, base);
      if e.Wait? {
        var x := Ask(e.tid, base <= e.tid < base + Created(before) && !Asked(b, e.tid));
        OnceMore(b, x);
        assert Asks(es, base) == b + [x];
      } else {
        assert Asks(es, base) == b;
      }
    }
  }

  lemma NoAsks()
    ensures OnceEach([])
  {
  }

  /** The state agrees with the history. */
  ghost predicate Fits(s: State, es: seq<Step>, base: nat) {
    && s.nextTid == base + Created(es)
    && (forall c :: c in s.children <==> base <= c < base + Created(es))
    && (forall c: nat :: LastStatus(es, c) == if c in s.children then s.children[c].exitStatus else 0)
    && CallsFit(s, Asks(es, base))
  }

  ghost predicate CallsFit(s: State, asks: seq<Ask>) {
    && |asks| == |s.calls| + (if s.pc.Outside? then 0 else 1)
    && (forall k :: 0 <= k < |s.calls| ==> s.calls[k].tid == asks[k].tid && s.calls[k].waited == asks[k].first)
    && (!s.pc.Outside? ==> asks[|s.calls|] == Ask(Held(s.pc).value, true))
  }

  lemma {:induction false} RunSnoc(s: State, es: seq<Step>)
    requires IsRun(s, es) && es != []
    ensures var before := es[..|es| - 1];
            && IsRun(s, before) && Enabled(End(s, before), es[|es| - 1])
            && End(s, es) == Apply(End(s, before), es[|es| - 1])
    decreases |es|
  {
    hide Enabled, Apply;
    var before, t := es[..|es| - 1], es[1..];
    if |es| == 1 {
      assert before == [] && t == [];
      assert IsRun(s, before) && End(s, before) == s;
    } else {
      RunSnoc(Apply(s, es[0]), t);
      assert t[..|t| - 1] == before[1..] && before[0] == es[0] && t[|t| - 1] == es[|es| - 1];
    }
  }

  lemma WaitedIsAsked(s: State, asks: seq<Ask>, tid: nat)
    requires CallsFit(s, asks) && s.pc.Outside?
    ensures Waited(s.calls, tid) <==> Asked(asks, tid)
  {
    if Waited(s.calls, tid) {
      var k :| 0 <= k < |s.calls| && s.calls[k].tid == tid && s.calls[k].waited;
      assert asks[k] == Ask(tid, true);
    }
    if Asked(asks, tid) {
      var j :| 0 <= j < |asks| && asks[j] == Ask(tid, true);
      assert s.calls[j].tid == tid && s.calls[j].waited;
    }
  }

  lemma FitsStep(s: State, es: seq<Step>, base: nat)
    requires es != [] && Fits(s, es[..|es| - 1], base) && Inv(s) && Enabled(s, es[|es| - 1])
    ensures Fits(Apply(s, es[|es| - 1]), es, base)
  {
    hide Inv, Fits, Apply;
    var e := es[|es| - 1];
    if e.Wait? {
      FitsWait(s, es, base);
    } else if e.Create? || e.SetStatus? {
      FitsChild(s, es, base);
    } else {
      FitsOther(s, es, base);
    }
  }

  lemma FitsChild(s: State, es: seq<Step>, base: nat)
    requires es != [] && Fits(s, es[..|es| - 1], base) && Enabled(s, es[|es| - 1])
    requires es[|es| - 1].Create? || es[|es| - 1].SetStatus?
    ensures Fits(Apply(s, es[|es| - 1]), es, base)
  {
    hide Asked;
    var before := es[..|es| - 1];
    assert Asks(es, base) == Asks(before, base);
    var e := es[|es| - 1];
    assert Created(es) == Created(before) + if e.Create? then 1 else 0;
    assert forall c: nat :: LastStatus(es, c) == if e.SetStatus? && e.child == c then e.status else LastStatus(before, c);
    hide Asks, Created, LastStatus;
  }

  lemma FitsOther(s: State, es: seq<Step>, base: nat)
    requires es != [] && Fits(s, es[..|es| - 1], base) && Enabled(s, es[|es| - 1])
    requires var e := es[|es| - 1]; e.Advance? || e.Exit? || e.Leave? || e.Free?
    ensures Fits(Apply(s, es[|es| - 1]), es, base)
  {
    hide Asked, Remove;
    var before := es[..|es| - 1];
    assert Asks(es, base) == Asks(before, base) && Created(es) == Created(before);
    assert forall c: nat :: LastStatus(es, c) == LastStatus(before, c);
    hide Asks, Created, LastStatus;
  }

  lemma FitsWait(s: State, es: seq<Step>, base: nat)
    requires es != [] && Fits(s, es[..|es| - 1], base) && Inv(s) && es[|es| - 1].Wait? && s.pc.Outside?
    ensures Fits(Apply(s, es[|es| - 1]), es, base)
  {
    hide Inv, Asked, Waited;
    var before, tid := es[..|es| - 1], es[|es| - 1].tid;
    var asks, n := Asks(before, base), Apply(s, Wait(tid));
    WaitsIff(s, tid);
    WaitedIsAsked(s, asks, tid);
    var first := base <= tid < base + Created(before) && !Asked(asks, tid);
    assert Asks(es, base) == asks + [Ask(tid, first)];
    assert n == if first then s.(pc := Down(tid)) else s.(calls := s.calls + [Call(tid, false, -1)]);
    assert CallsFit(n, asks + [Ask(tid, first)]);
  }

  lemma StartFits(base: nat)
    ensures Inv(Start(base)) && Fits(Start(base), [], base)
  {
  }

  lemma {:induction false} RunFits(base: nat, es: seq<Step>)
    requires IsRun(Start(base), es)
    ensures Fits(End(Start(base), es), es, base) && Inv(End(Start(base), es))
    decreases |es|
  {
    hide Inv, Enabled, Apply, Fits;
    StartFits(base);
    RunKeeps(Start(base), es);
    if es != [] {
      RunSnoc(Start(base), es);
      RunFits(base, es[..|es| - 1]);
      FitsStep(End(Start(base), es[..|es| - 1]), es, base);
    }
  }

  /** In every interleaving the finished calls answer the calls made, in order, and at most the last one is
      still waiting. The first call for an existing child waits and returns the status that child recorded
      last, -1 if it is negative; every other call returns -1 without waiting. */
  lemma EveryAnswerIsRight(base: nat, es: seq<Step>)
    requires IsRun(Start(base), es)
    ensures var s, asks := End(Start(base), es), Asks(es, base);
            && |asks| == |s.calls| + (if s.pc.Outside? then 0 else 1)
            && (!s.pc.Outside? ==> asks[|s.calls|] == Ask(Held(s.pc).value, true))
            && forall k :: 0 <= k < |s.calls| ==>
                 var status := LastStatus(es, asks[k].tid);
                 s.calls[k] == Call(asks[k].tid, asks[k].first, if !asks[k].first || status < 0 then -1 else status)
    ensures var a := Asks(es, base); forall j, k :: 0 <= j < k < |a| && a[j].first && a[k].first ==> a[j].tid != a[k].tid
  {
    hide Enabled, Apply, ChildOk, Asked;
    RunFits(base, es);
    FirstOnce(es, base);
    var s, asks := End(Start(base), es), Asks(es, base);
    forall k | 0 <= k < |s.calls|
      ensures var status := LastStatus(es, asks[k].tid);
              s.calls[k] == Call(asks[k].tid, asks[k].first, if !asks[k].first || status < 0 then -1 else status) {
      assert CallOk(s, k);
    }
  }

  /** The steps the parent and the child C still need before process_wait returns. */
  function Distance(s: State): nat {
    match s.pc
    case Outside => 0
    case Down(c) => if c in s.children && s.children[c].phase.Running? then 5 else 4
    case Read(_) => 3
    case Unlink(_, _) => 2
    case Up(_, _) => 1
  }

  /** A parent inside process_wait is never stuck: the child's exit and its own steps bring it back with the
      child's status. */
  lemma {:induction false} WaitCompletes(s: State) returns (es: seq<Step>)
    requires Inv(s) && Held(s.pc).Some?
    ensures IsRun(s, es) && forall i :: 0 <= i < |es| ==> es[i] == Advance || es[i] == Exit(Held(s.pc).value)
    ensures Held(s.pc).value in s.children
    ensures End(s, es).pc.Outside?
    ensures End(s, es).calls == s.calls + [Call(Held(s.pc).value, true, Clip(s.children[Held(s.pc).value].exitStatus))]
    decreases Distance(s)
  {
    hide Inv, Waited;
    var c := Held(s.pc).value;
    HeldChild(s);
    var e := if s.pc.Down? && s.children[c].phase.Running? then Exit(c) else Advance;
    StepKeeps(s, e);
    var n := Apply(s, e);
    if n.pc.Outside? {
      es := [e];
      assert IsRun(n, es[1..]);
    } else {
      var rest := WaitCompletes(n);
      es := [e] + rest;
      assert es[1..] == rest;
    }
  }

  lemma HeldChild(s: State)
    requires Inv(s) && Held(s.pc).Some?
    ensures var c := Held(s.pc).value;
            && c in s.children && (s.pc.Down? && !s.children[c].phase.Running? ==> s.children[c].waitSema == 1)
            && (s.pc.Unlink? || s.pc.Up? ==> s.pc.status == s.children[c].exitStatus)
  {
    hide Waited;
    assert ChildOk(s, Held(s.pc).value);
  }
}
