/** The multi-level feedback queue's bookkeeping: the 17.14 fixed-point operations of threads/fixed-point.c
    and the load average and recent_cpu updates of threads/thread.c, in 32-bit arithmetic. */
module Mlfqs {
  import opened Basics
  import opened Division

  const F: int := 16384               // 1 << 14
  const TIMER_FREQ: nat := 100
  const PRI_MAX: int := 63
  const MAX_THREADS: nat := 545

  // ---------- fixed point ----------

  function IntToFp(n: int): int { I32(n * F) }
  function FpToIntRound(x: int): int { if x >= 0 then TruncDiv(I32(x + F / 2), F) else TruncDiv(I32(x - F / 2), F) }
  function AddFp(x: int, y: int): int { I32(x + y) }
  function AddFpInt(x: int, n: int): int { I32(x + I32(n * F)) }
  function MulFp(x: int, y: int): int { I32(TruncDiv(I64(x * y), F)) }
  function MulFpInt(x: int, n: int): int { I32(x * n) }
  function DivFp(x: int, y: int): int requires y != 0 { I32(TruncDiv(I64(x * F), y)) }
  function DivFpInt(x: int, n: int): int requires n != 0 { I32(TruncDiv(x, n)) }

  // ---------- the formulas ----------

  /** update_load_avg, for READY ready or running threads. */
  function LoadStep(load: int, ready: int): int {
    AddFp(DivFpInt(MulFpInt(load, 59), 60), MulFpInt(DivFpInt(IntToFp(1), 60), ready))
  }

  /** The factor of update_recent_cpu_all; its divisor is never 0 for a load average in bounds. */
  function Coefficient(load: int): int {
    var d := AddFpInt(MulFpInt(load, 2), 1);
    if d == 0 then 0 else DivFp(MulFpInt(load, 2), d)
  }

  /** One thread's part of update_recent_cpu_all. */
  function Decay(load: int, recent: int, nice: int): int {
    AddFp(MulFp(Coefficient(load), recent), IntToFp(nice))
  }

  /** update_priority's value. */
  function PriorityOf(recent: int, nice: int): int {
    var p := I32(I32(PRI_MAX - FpToIntRound(DivFpInt(recent, 4))) - I32(nice * 2));
    if p > PRI_MAX then PRI_MAX else if p < 0 then 0 else p
  }

  // ---------- the same without overflow ----------

  /** 59/60 of the old load average plus 1/60 for each ready or running thread. */
  function LoadFormula(load: int, ready: int): int { TruncDiv(59 * load, 60) + TruncDiv(F, 60) * ready }

  /** recent_cpu scaled by 2L / (2L + 1), plus the nice value. */
  function DecayFormula(load: int, recent: int, nice: int): int
    requires 2 * load + F != 0
  {
    TruncDiv(TruncDiv(2 * load * F, 2 * load + F) * recent, F) + nice * F
  }

  /** 63 less a quarter of recent_cpu, rounded to the nearest, less twice the nice value, cut to 0..63. */
  function PriorityFormula(recent: int, nice: int): int {
    var q := TruncDiv(recent, 4);
    var p := PRI_MAX - TruncDiv(if q >= 0 then q + F / 2 else q - F / 2, F) - 2 * nice;
    if p > PRI_MAX then PRI_MAX else if p < 0 then 0 else p
  }

  // ---------- the bounds ----------

  predicate LoadOk(n: nat, load: int) { 0 <= load <= 16380 * n }

  /** recent_cpu, SINCE ticks after the last per-second update. */
  predicate RecentOk(n: nat, since: nat, recent: int) { -(40 * n + 20) * F <= recent <= (240 * n + 20 + since) * F }

  predicate NiceOk(nice: int) { -20 <= nice <= 20 }

  lemma TruncPositive(x: int, d: int)
    requires 0 <= x && d > 0
    ensures 0 <= TruncDiv(x, d) && d * TruncDiv(x, d) <= x < d * TruncDiv(x, d) + d
  {
    TruncSpec(x, d);
    hide TruncDiv, TruncRem;
    assert Abs(d) == d;
  }

  lemma TruncOdd(x: int, d: int)
    requires d > 0
    ensures TruncDiv(-x, d) == -TruncDiv(x, d)
  {
    hide Quo;
    if x == 0 { Zero(d); }
  }

  lemma Zero(d: int)
    requires d > 0
    ensures Quo(0, d) == 0
  {
  }

  /** Without overflow the load average is the sum of the two rounded terms, and it stays in bounds. */
  lemma LoadStepOk(n: nat, load: int, ready: int)
    requires LoadOk(n, load) && 0 <= ready <= n <= 2222
    ensures LoadStep(load, ready) == LoadFormula(load, ready)
    ensures LoadOk(n, LoadStep(load, ready))
  {
    hide I32, TruncDiv;
    FitsI32(load * 59);
    TruncPositive(load * 59, 60);
    FitsI32(TruncDiv(load * 59, 60));
    FitsI32(F);
    TruncPositive(F, 60);
    FitsI32(273);
    FitsI32(273 * ready);
    FitsI32(TruncDiv(load * 59, 60) + 273 * ready);
  }

  /** The factor is the rounded 2L / (2L + 1), and is less than 1. */
  lemma CoefficientOk(n: nat, load: int)
    requires LoadOk(n, load) && n <= 2222
    ensures Coefficient(load) == TruncDiv(2 * load * F, 2 * load + F)
    ensures 0 <= Coefficient(load) < F && Coefficient(load) * (2 * load + F) <= 2 * load * F
  {
    hide I32, I64, TruncDiv;
    FitsI32(load * 2);
    FitsI32(F);
    FitsI32(load * 2 + F);
    FitsI64(load * 2 * F);
    var c := TruncDiv(2 * load * F, 2 * load + F);
    TruncPositive(2 * load * F, 2 * load + F);
    assert c * (2 * load + F) <= 2 * load * F;
    if c >= F { Bigger(c, 2 * load + F); }
    FitsI32(c);
  }

  lemma Bigger(c: int, d: int)
    requires c >= F && d > 0
    ensures c * d >= F * d
  {
  }

  /** Multiplying by the factor shrinks (a + b) to at most a, when the load is low enough for b. */
  lemma Shrink(x: int, c: int, a: int, b: int)
    requires 0 <= x && 0 <= c && 0 <= a && 0 <= b && c * (x + F) <= x * F && b * x <= a * F
    ensures c * (a + b) <= a * F
  {
    var d := x + F;
    assert (c * d) * (a + b) <= (x * F) * (a + b) by { Scale(c * d, x * F, a + b); }
    assert (x * F) * (a + b) == F * (a * x + b * x) by { Regroup(x, a, b); }
    assert F * (a * x + b * x) <= F * (a * x + a * F);
    assert F * (a * x + a * F) == (a * F) * d by { Regroup2(x, a); }
    assert (c * d) * (a + b) == (c * (a + b)) * d by { Regroup3(c, d, a + b); }
    Cancel(c * (a + b), a * F, d);
  }

  lemma Scale(p: int, q: int, k: int)
    requires p <= q && k >= 0
    ensures p * k <= q * k
  {
  }

  lemma Regroup(x: int, a: int, b: int)
    ensures (x * F) * (a + b) == F * (a * x + b * x)
  {
  }

  lemma Regroup2(x: int, a: int)
    ensures F * (a * x + a * F) == (a * F) * (x + F)
  {
  }

  lemma Regroup3(c: int, d: int, k: int)
    ensures (c * d) * k == (c * k) * d
  {
  }

  lemma Cancel(p: int, q: int, d: int)
    requires p * d <= q * d && d > 0
    ensures p <= q
  {
  }

  /** |recent| at most (a + b) in fixed point shrinks to at most a. */
  lemma ShrinkRecent(c: int, a: int, b: int, recent: int)
    requires 0 <= c < F && 0 <= a && 0 <= b && c * (a + b) <= a * F && 0 <= recent <= (a + b) * F
    ensures 0 <= c * recent && 0 <= TruncDiv(c * recent, F) <= a * F
  {
    Scale(recent, (a + b) * F, c);
    assert c * recent <= c * ((a + b) * F);
    assert c * ((a + b) * F) == (c * (a + b)) * F;
    assert c * recent <= (a * F) * F;
    TruncPositive(c * recent, F);
    hide TruncDiv;
    Cancel(TruncDiv(c * recent, F), a * F, F);
  }

  /** The per-second update does not overflow and brings recent_cpu back into its bounds. */
  lemma DecayOk(n: nat, load: int, recent: int, nice: int)
    requires n <= MAX_THREADS && LoadOk(n, load) && RecentOk(n, TIMER_FREQ, recent) && NiceOk(nice)
    ensures Decay(load, recent, nice) == DecayFormula(load, recent, nice)
    ensures RecentOk(n, 0, Decay(load, recent, nice))
  {
    hide I32, I64, TruncDiv, Coefficient;
    CoefficientOk(n, load);
    var c, x := Coefficient(load), 2 * load;
    if recent >= 0 {
      Shrink(x, c, 240 * n, 120);
      ShrinkRecent(c, 240 * n, 120, recent);
    } else {
      Shrink(x, c, 40 * n, 20);
      ShrinkRecent(c, 40 * n, 20, -recent);
      TruncOdd(c * -recent, F);
      assert -(c * -recent) == c * recent;
    }
    InLong(c, recent);
    FitsI64(c * recent);
    FitsI32(TruncDiv(c * recent, F));
    FitsI32(nice * F);
    FitsI32(TruncDiv(c * recent, F) + nice * F);
  }

  lemma InLong(c: int, r: int)
    requires 0 <= c < F && -TWO31 <= r < TWO31
    ensures -TWO63 <= c * r < TWO63
  {
    if r >= 0 {
      Scale(c, F, r);
    } else {
      Scale(c, F, -r);
      assert c * -r == -(c * r);
    }
  }

  /** One tick of running does not overflow. */
  lemma TickOk(n: nat, since: nat, recent: int)
    requires n <= MAX_THREADS && since < TIMER_FREQ && RecentOk(n, since, recent)
    ensures AddFpInt(recent, 1) == recent + F && RecentOk(n, since + 1, recent + F)
  {
    hide I32;
    FitsI32(F);
    FitsI32(recent + F);
  }

  lemma Later(n: nat, since: nat, later: nat, recent: int)
    requires RecentOk(n, since, recent) && since <= later
    ensures RecentOk(n, later, recent)
  {
  }

  /** The idle thread's recent_cpu after K ticks of running: it is never decayed. */
  function IdleTicks(k: nat): int {
    if k == 0 then 0 else AddFpInt(IdleTicks(k - 1), 1)
  }

  /** It counts the ticks exactly up to 131071 of them; then it wraps around. */
  lemma {:induction false} IdleExactIff(k: nat)
    ensures IdleTicks(k) == k * F <==> k < 131072
  {
    hide I32;
    if k > 0 {
      IdleExactIff(k - 1);
      FitsI32(F);
      FitsI32(k * F);
      InRange(IdleTicks(k - 1) + I32(F));
    }
  }

  lemma InRange(x: int)
    ensures -TWO31 <= I32(x) < TWO31
  {
  }

  /** update_priority does not overflow: the result is the rounded formula, cut to the priorities 0 to 63. */
  lemma PriorityExact(n: nat, recent: int, nice: int)
    requires n <= MAX_THREADS && RecentOk(n, TIMER_FREQ, recent) && NiceOk(nice)
    ensures PriorityOf(recent, nice) == PriorityFormula(recent, nice)
  {
    hide I32, TruncDiv;
    var q := TruncDiv(recent, 4);
    SmallQuotients(recent, 4);
    FitsI32(q);
    FitsI32(q + F / 2);
    FitsI32(q - F / 2);
    var r := if q >= 0 then q + F / 2 else q - F / 2;
    SmallQuotients(r, F);
    FitsI32(PRI_MAX - TruncDiv(r, F));
    FitsI32(nice * 2);
    FitsI32(PRI_MAX - TruncDiv(r, F) - nice * 2);
  }

  lemma SmallQuotients(x: int, d: int)
    requires d > 0
    ensures x >= 0 ==> 0 <= d * TruncDiv(x, d) <= x
    ensures x <= 0 ==> x <= d * TruncDiv(x, d) <= 0
  {
    if x >= 0 {
      TruncPositive(x, d);
    } else {
      TruncPositive(-x, d);
      TruncOdd(-x, d);
    }
    hide TruncDiv;
  }

  // ---------- runs ----------

  datatype Thread = Thread(nice: int, recentCpu: int, priority: int, dying: bool)

  /** THREADS are the threads whose pages are still allocated. ALLLIST is all_list: nothing is ever taken off
      it, so it may name threads whose pages have been freed. */
  datatype State = State(ticks: nat, loadAvg: int, threads: map<nat, Thread>, allList: seq<nat>)

  /** The idle thread is thread 0; it is neither decayed nor given a priority. */
  const IDLE: nat := 0

  /** The initial thread's page is never freed. */
  const INITIAL: nat := 1

  datatype Event =
    | Tick(current: nat, ready: nat)       // a timer interrupt while CURRENT runs and READY threads wait
    | SetNice(t: nat, nice: int)
    | Create(parent: nat, child: nat)
    | Exit(t: nat)
    | Free(t: nat)                         // the scheduler frees the page of a thread that has exited

  function ReadyCount(e: Event): nat
    requires e.Tick?
  {
    e.ready + if e.current != IDLE then 1 else 0
  }

  /** A walk over all_list touches no freed page. */
  ghost predicate AllLive(s: State) { forall t :: t in s.allList ==> t in s.threads }

  /** At most N threads are ready or running, nice values stay in their range, new threads get pages that
      have not been used before, and the ticks that walk all_list meet no freed page. */
  ghost predicate Allowed(n: nat, s: State, e: Event) {
    match e
    case Tick(current, ready) =>
      && current in s.threads && !s.threads[current].dying && ReadyCount(e) <= n
      && ((s.ticks + 1) % 4 == 0 ==> AllLive(s))
    case SetNice(t, nice) => t in s.threads && t != IDLE && !s.threads[t].dying && NiceOk(nice)
    case Create(parent, child) =>
      && parent in s.threads && parent != IDLE && !s.threads[parent].dying
      && child !in s.threads && child !in s.allList && child != IDLE
    case Exit(t) => t in s.threads && t != IDLE
    case Free(t) => t in s.threads && s.threads[t].dying && t != INITIAL
  }

  function RunOne(threads: map<nat, Thread>, t: nat): map<nat, Thread>
    requires t in threads
  {
    threads[t := threads[t].(recentCpu := AddFpInt(threads[t].recentCpu, 1))]
  }

  function DecayOne(load: int, t: nat, r: Thread): Thread {
    if t == IDLE || r.dying then r else r.(recentCpu := Decay(load, r.recentCpu, r.nice))
  }

  function DecayAll(load: int, threads: map<nat, Thread>): map<nat, Thread> {
    map t | t in threads :: DecayOne(load, t, threads[t])
  }

  /** update_priority on a thread other than the idle one. */
  function Reprioritised(r: Thread): Thread { r.(priority := PriorityOf(r.recentCpu, r.nice)) }

  function PriorityOne(t: nat, r: Thread): Thread { if t == IDLE || r.dying then r else Reprioritised(r) }

  function PriorityAll(threads: map<nat, Thread>): map<nat, Thread> {
    map t | t in threads :: PriorityOne(t, threads[t])
  }

  /** The per-second part of mlfqs_on_tick. */
  function Second(ticks: nat, loadAvg: int, threads: map<nat, Thread>, ready: nat): (int, map<nat, Thread>) {
    if ticks % TIMER_FREQ == 0 then
      var load := LoadStep(loadAvg, ready);
      (load, DecayAll(load, threads))
    else (loadAvg, threads)
  }

  /** mlfqs_on_tick, after the timer has counted the tick; the yield at its end is the scheduler's. */
  function OnTick(s: State, current: nat, ready: nat): State
    requires current in s.threads
  {
    var ticks := s.ticks + 1;
    var (load, threads) := Second(ticks, s.loadAvg, RunOne(s.threads, current), ready);
    s.(ticks := ticks, loadAvg := load, threads := if ticks % 4 == 0 then PriorityAll(threads) else threads)
  }

  function Apply(n: nat, s: State, e: Event): State
    requires Allowed(n, s, e)
  {
    match e
    case Tick(current, ready) => OnTick(s, current, ReadyCount(e))
    case SetNice(t, nice) => s.(threads := s.threads[t := Reprioritised(s.threads[t].(nice := nice))])
    case Create(parent, child) =>
      s.(threads := s.threads[child := Reprioritised(s.threads[parent])], allList := s.allList + [child])
    case Exit(t) => s.(threads := s.threads[t := s.threads[t].(dying := true)])
    case Free(t) => s.(threads := s.threads - {t})
  }

  ghost predicate ThreadOk(n: nat, since: nat, r: Thread) {
    NiceOk(r.nice) && RecentOk(n, since, r.recentCpu) && 0 <= r.priority <= PRI_MAX
  }

  ghost predicate Bounded(n: nat, s: State) {
    && LoadOk(n, s.loadAvg)
    && forall t :: t in s.threads && t != IDLE && !s.threads[t].dying ==> ThreadOk(n, s.ticks % TIMER_FREQ, s.threads[t])
  }

  lemma PriorityInRange(recent: int, nice: int)
    ensures 0 <= PriorityOf(recent, nice) <= PRI_MAX
  {
  }

  lemma SecondKeeps(n: nat, since: nat, ticks: nat, loadAvg: int, threads: map<nat, Thread>, ready: nat)
    requires n <= MAX_THREADS && LoadOk(n, loadAvg) && ready <= n
    requires forall t :: t in threads && t != IDLE && !threads[t].dying ==> ThreadOk(n, since, threads[t])
    requires since <= TIMER_FREQ && if ticks % TIMER_FREQ == 0 then since == TIMER_FREQ else since == ticks % TIMER_FREQ
    ensures var (load, r) := Second(ticks, loadAvg, threads, ready);
            && LoadOk(n, load) && r.Keys == threads.Keys
            && forall t :: t in r && t != IDLE && !r[t].dying ==> ThreadOk(n, ticks % TIMER_FREQ, r[t])
  {
    hide LoadStep, Decay, RecentOk, NiceOk;
    if ticks % TIMER_FREQ == 0 {
      LoadStepOk(n, loadAvg, ready);
      var load := LoadStep(loadAvg, ready);
      forall t | t in threads && t != IDLE && !threads[t].dying
        ensures RecentOk(n, 0, DecayOne(load, t, threads[t]).recentCpu) {
        DecayOk(n, load, threads[t].recentCpu, threads[t].nice);
      }
    }
  }

  lemma TickKeeps(n: nat, s: State, current: nat, ready: nat)
    requires n <= MAX_THREADS && Bounded(n, s) && current in s.threads && !s.threads[current].dying && ready <= n
    ensures Bounded(n, OnTick(s, current, ready))
  {
    hide LoadStep, Decay, RecentOk, NiceOk, AddFpInt, PriorityOf, Second;
    var since := s.ticks % TIMER_FREQ;
    var ticks, threads := s.ticks + 1, RunOne(s.threads, current);
    forall t | t in threads && t != IDLE && !threads[t].dying ensures ThreadOk(n, since + 1, threads[t]) {
      if t == current { TickOk(n, since, s.threads[t].recentCpu); } else { Later(n, since, since + 1, s.threads[t].recentCpu); }
    }
    assert if ticks % TIMER_FREQ == 0 then since + 1 == TIMER_FREQ else since + 1 == ticks % TIMER_FREQ;
    SecondKeeps(n, since + 1, ticks, s.loadAvg, threads, ready);
    forall recent, nice ensures 0 <= PriorityOf(recent, nice) <= PRI_MAX { PriorityInRange(recent, nice); }
  }

  /** What a tick from S to S' does to thread T while CURRENT runs. */
  ghost predicate ThreadTicked(s: State, s': State, current: nat, t: nat)
    requires t in s.threads && t in s'.threads && 0 <= s'.loadAvg
  {
    var r, r' := s.threads[t], s'.threads[t];
    var ran := r.recentCpu + if t == current then F else 0;
    && r'.nice == r.nice && r'.dying == r.dying
    && (t == IDLE || r.dying ==>
        r'.priority == r.priority && r'.recentCpu == if t == current then I32(r.recentCpu + F) else r.recentCpu)
    && (t != IDLE && !r.dying ==>
        && r'.recentCpu == (if s'.ticks % TIMER_FREQ == 0 then DecayFormula(s'.loadAvg, ran, r.nice) else ran)
        && r'.priority == (if s'.ticks % 4 == 0 then PriorityFormula(r'.recentCpu, r.nice) else r.priority))
  }

  /** A tick in bounds, with at most N ready or running threads. */
  ghost predicate TickFits(n: nat, s: State, current: nat, ready: nat) {
    && n <= MAX_THREADS && Bounded(n, s) && current in s.threads && !s.threads[current].dying
    && ready + (if current == IDLE then 0 else 1) <= n
  }

  /** A tick counts one unit for the running thread, every second updates the load average from the ready
      and the running non-idle thread and decays every living thread by it, and every fourth tick
      recomputes the priorities from the new values. */
  lemma TickMeaning(n: nat, s: State, current: nat, ready: nat)
    requires TickFits(n, s, current, ready)
    ensures var s' := OnTick(s, current, ReadyCount(Tick(current, ready)));
            && s'.ticks == s.ticks + 1 && s'.allList == s.allList && s'.threads.Keys == s.threads.Keys
            && s'.loadAvg == (if s'.ticks % TIMER_FREQ == 0
                              then LoadFormula(s.loadAvg, ready + if current == IDLE then 0 else 1) else s.loadAvg)
            && 0 <= s'.loadAvg && forall t :: t in s.threads ==> ThreadTicked(s, s', current, t)
  {
    hide LoadStep, Decay, RecentOk, NiceOk, PriorityOf, LoadFormula, DecayFormula, PriorityFormula, AddFpInt;
    var units := ReadyCount(Tick(current, ready));
    var s' := OnTick(s, current, units);
    LoadStepOk(n, s.loadAvg, units);
    OneUnit(s.threads[current].recentCpu);
    forall t | t in s.threads ensures ThreadTicked(s, s', current, t) {
      if t != IDLE && !s.threads[t].dying { LivingTicked(n, s, current, units, t); }
    }
  }

  lemma OneUnit(recent: int)
    ensures AddFpInt(recent, 1) == I32(recent + F)
  {
    hide I32;
    FitsI32(F);
  }

  /** The other events: a nice value takes effect at once; a new thread starts with its parent's recent_cpu
      and nice value, and is listed; an exit only marks the thread; everything else stays. */
  lemma EventMeaning(n: nat, s: State, e: Event)
    requires n <= MAX_THREADS && Bounded(n, s) && Allowed(n, s, e)
    ensures var s' := Apply(n, s, e);
            match e
            case Tick(_, _) => true
            case SetNice(t, nice) =>
              && t in s'.threads && s'.threads[t] == s.threads[t].(nice := nice, priority := PriorityFormula(s.threads[t].recentCpu, nice))
              && s' == s.(threads := s.threads[t := s'.threads[t]])
            case Create(parent, child) =>
              && child in s'.threads && s'.allList == s.allList + [child]
              && s'.threads[child] == s.threads[parent].(priority := PriorityFormula(s.threads[parent].recentCpu, s.threads[parent].nice))
              && s' == s.(threads := s.threads[child := s'.threads[child]], allList := s'.allList)
            case Exit(t) => s' == s.(threads := s.threads[t := s.threads[t].(dying := true)])
            case Free(t) => s' == s.(threads := s.threads - {t})
  {
    hide RecentOk, NiceOk, OnTick, PriorityOf, PriorityFormula;
    match e
    case SetNice(t, nice) =>
      Within(n, s.ticks, s.threads[t].recentCpu);
      PriorityExact(n, s.threads[t].recentCpu, nice);
    case Create(parent, child) =>
      Within(n, s.ticks, s.threads[parent].recentCpu);
      PriorityExact(n, s.threads[parent].recentCpu, s.threads[parent].nice);
    case _ =>
  }

  lemma Within(n: nat, ticks: nat, recent: int)
    requires RecentOk(n, ticks % TIMER_FREQ, recent)
    ensures RecentOk(n, TIMER_FREQ, recent)
  {
    Later(n, ticks % TIMER_FREQ, TIMER_FREQ, recent);
  }

  lemma LivingTicked(n: nat, s: State, current: nat, units: nat, t: nat)
    requires n <= MAX_THREADS && Bounded(n, s) && current in s.threads && units <= n
    requires t in s.threads && t != IDLE && !s.threads[t].dying
    ensures var s' := OnTick(s, current, units); t in s'.threads && 0 <= s'.loadAvg && ThreadTicked(s, s', current, t)
  {
    hide LoadStep, Decay, NiceOk, PriorityOf, LoadFormula, DecayFormula, PriorityFormula, AddFpInt;
    var since := s.ticks % TIMER_FREQ;
    var r, s' := s.threads[t], OnTick(s, current, units);
    LoadStepOk(n, s.loadAvg, units);
    if t == current { TickOk(n, since, r.recentCpu); }
    var ran := r.recentCpu + if t == current then F else 0;
    assert RecentOk(n, TIMER_FREQ, ran);
    DecayOk(n, s'.loadAvg, ran, r.nice);
    PriorityExact(n, s'.threads[t].recentCpu, r.nice);
  }

  lemma ApplyKeeps(n: nat, s: State, e: Event)
    requires n <= MAX_THREADS && Bounded(n, s) && Allowed(n, s, e)
    ensures Bounded(n, Apply(n, s, e))
  {
    hide RecentOk, NiceOk, OnTick, PriorityOf;
    forall recent, nice ensures 0 <= PriorityOf(recent, nice) <= PRI_MAX { PriorityInRange(recent, nice); }
    if e.Tick? { TickKeeps(n, s, e.current, ReadyCount(e)); }
  }

  ghost predicate IsRun(n: nat, s: State, es: seq<Event>)
    decreases |es|
  {
    es == [] || (Allowed(n, s, es[0]) && IsRun(n, Apply(n, s, es[0]), es[1..]))
  }

  ghost function End(n: nat, s: State, es: seq<Event>): State
    requires IsRun(n, s, es)
    decreases |es|
  {
    if es == [] then s else End(n, Apply(n, s, es[0]), es[1..])
  }

  lemma {:induction false} RunKeeps(n: nat, s: State, es: seq<Event>)
    requires n <= MAX_THREADS && Bounded(n, s) && IsRun(n, s, es)
    ensures Bounded(n, End(n, s, es))
    decreases |es|
  {
    hide Bounded, Allowed, Apply;
    if es != [] {
      ApplyKeeps(n, s, es[0]);
      RunKeeps(n, Apply(n, s, es[0]), es[1..]);
    }
  }

  /** After thread_start: the initial thread, 1, with the default priority, and the idle thread, whose priority
      thread_create has computed before it is known as the idle thread. */
  function Start(ticks: nat): State {
    State(ticks, 0, map[INITIAL := Thread(0, 0, 31, false), IDLE := Thread(0, 0, PRI_MAX, false)], [INITIAL, IDLE])
  }

  /** Every run from the start with at most N ready or running threads, in which no walk over all_list meets
      a freed page, keeps the load average in [0, 16380 N], every priority in [0, 63], and every recent_cpu
      between -(40 N + 20) and 240 N + 20 plus the ticks since the last per-second update. */
  lemma RunBounded(n: nat, ticks: nat, es: seq<Event>)
    requires n <= MAX_THREADS && IsRun(n, Start(ticks), es)
    ensures Bounded(n, End(n, Start(ticks), es))
  {
    RunKeeps(n, Start(ticks), es);
  }

  // ---------- walks over freed pages ----------

  ghost predicate FreesNone(es: seq<Event>) { forall i :: 0 <= i < |es| ==> !es[i].Free? }

  lemma LiveStep(n: nat, s: State, e: Event)
    requires Allowed(n, s, e) && forall t :: t in s.threads ==> t in s.allList
    ensures forall t :: t in Apply(n, s, e).threads ==> t in Apply(n, s, e).allList
    ensures AllLive(Apply(n, s, e)) <==> AllLive(s) && !e.Free?
  {
    hide RunOne, Second, PriorityAll, Reprioritised;
    if e.Tick? { TickThreads(s, e.current, ReadyCount(e)); }
    var s' := Apply(n, s, e);
    if e.Create? {
      assert s'.allList[|s.allList|] == e.child && forall t :: t in s.allList ==> t in s'.allList;
    }
    if e.Free? {
      assert e.t in s'.allList && e.t !in s'.threads;
    }
  }

  lemma TickThreads(s: State, current: nat, ready: nat)
    requires current in s.threads
    ensures OnTick(s, current, ready).threads.Keys == s.threads.Keys
  {
    hide LoadStep, Decay, PriorityOf, AddFpInt;
  }

  lemma {:induction false} LiveRun(n: nat, s: State, es: seq<Event>)
    requires IsRun(n, s, es) && forall t :: t in s.threads ==> t in s.allList
    ensures AllLive(End(n, s, es)) <==> AllLive(s) && FreesNone(es)
    decreases |es|
  {
    hide AllLive, Allowed, Apply;
    if es != [] {
      LiveStep(n, s, es[0]);
      LiveRun(n, Apply(n, s, es[0]), es[1..]);
      assert es == [es[0]] + es[1..];
      assert FreesNone(es) <==> !es[0].Free? && FreesNone(es[1..]) by {
        assert forall i :: 0 <= i < |es[1..]| ==> es[1..][i] == es[i + 1];
      }
    }
  }

  /** A walk over all_list after a run touches live pages only exactly when no page of an exited thread has
      been freed in it: exited threads are never unlinked. */
  lemma WalkIsSafeIff(n: nat, ticks: nat, es: seq<Event>)
    requires IsRun(n, Start(ticks), es)
    ensures AllLive(End(n, Start(ticks), es)) <==> FreesNone(es)
  {
    LiveRun(n, Start(ticks), es);
  }

  /** A thread is created, exits and is freed: the next tick that is a multiple of 4 reads its page. */
  lemma ExitedThreadIsRead()
    ensures IsRun(2, Start(2), [Create(1, 2), Exit(2), Free(2), Tick(1, 0)])
    ensures var s := End(2, Start(2), [Create(1, 2), Exit(2), Free(2), Tick(1, 0)]);
            (s.ticks + 1) % 4 == 0 && 2 in s.allList && 2 !in s.threads && !Allowed(2, s, Tick(1, 0))
  {
    hide LoadStep, Decay, PriorityOf, AddFpInt;
    var s1 := Apply(2, Start(2), Create(1, 2));
    var s2 := Apply(2, s1, Exit(2));
    var s3 := Apply(2, s2, Free(2));
    var e3, e2, e1 := [Tick(1, 0)], [Free(2), Tick(1, 0)], [Exit(2), Free(2), Tick(1, 0)];
    var e0 := [Create(1, 2), Exit(2), Free(2), Tick(1, 0)];
    assert e0[1..] == e1 && e1[1..] == e2 && e2[1..] == e3 && e3[1..] == [];
    assert 2 in s3.allList && 2 !in s3.threads && 1 in s3.threads && s3.ticks == 2;
    TickThreads(s3, 1, 1);
    var s4 := Apply(2, s3, Tick(1, 0));
    assert IsRun(2, s4, []);
    assert IsRun(2, s3, e3) && IsRun(2, s2, e2) && IsRun(2, s1, e1);
    assert End(2, s3, e3) == s4 && End(2, s2, e2) == s4 && End(2, s1, e1) == s4;
  }

  // ---------- the scheduler's variables ----------

  class Scheduler {
    var ticks: nat
    var loadAvg: int
    var threads: map<nat, Thread>
    var allList: seq<nat>

    ghost function View(): State
      reads this
    {
      State(ticks, loadAvg, threads, allList)
    }

    /** all_list names every thread, once. */
    ghost predicate Listed()
      reads this
    {
      (forall t :: t in threads ==> t in allList) && NoDup(allList)
    }

    /** update_recent_cpu_all, which may be called while no listed thread has been freed. */
    method UpdateRecentCpuAll()
      requires Listed() && AllLive(View())
      modifies this`threads
      ensures threads == DecayAll(loadAvg, old(threads))
    {
      hide Decay;
      ghost var before := threads;
      var i := 0;
      while i < |allList|
        invariant 0 <= i <= |allList| && threads.Keys == before.Keys
        invariant forall k :: 0 <= k < i ==> threads[allList[k]] == DecayOne(loadAvg, allList[k], before[allList[k]])
        invariant forall k :: i <= k < |allList| ==> threads[allList[k]] == before[allList[k]]
      {
        var t := allList[i];
        var r := threads[t];
        if !(r.dying || t == IDLE) {
          threads := threads[t := r.(recentCpu := Decay(loadAvg, r.recentCpu, r.nice))];
        }
        i := i + 1;
      }
      forall t | t in before ensures threads[t] == DecayOne(loadAvg, t, before[t]) {
        var k :| 0 <= k < |allList| && allList[k] == t;
      }
    }

    /** update_all_priority, likewise. */
    method UpdateAllPriority()
      requires Listed() && AllLive(View())
      modifies this`threads
      ensures threads == PriorityAll(old(threads))
    {
      hide PriorityOf;
      ghost var before := threads;
      var i := 0;
      while i < |allList|
        invariant 0 <= i <= |allList| && threads.Keys == before.Keys
        invariant forall k :: 0 <= k < i ==> threads[allList[k]] == PriorityOne(allList[k], before[allList[k]])
        invariant forall k :: i <= k < |allList| ==> threads[allList[k]] == before[allList[k]]
      {
        var t := allList[i];
        var r := threads[t];
        if !(r.dying || t == IDLE) {
          threads := threads[t := r.(priority := PriorityOf(r.recentCpu, r.nice))];
        }
        i := i + 1;
      }
      forall t | t in before ensures threads[t] == PriorityOne(t, before[t]) {
        var k :| 0 <= k < |allList| && allList[k] == t;
      }
    }

    /** timer_interrupt's count and mlfqs_on_tick, with READY threads on the ready list. */
    method TimerTick(current: nat, ready: nat, ghost n: nat)
      requires Listed() && current in threads && ((ticks + 1) % 4 == 0 ==> AllLive(View()))
      modifies this
      ensures View() == OnTick(old(View()), current, ReadyCount(Tick(current, ready)))
      ensures ticks == old(ticks) + 1 && allList == old(allList) && threads.Keys == old(threads).Keys
      ensures TickFits(n, old(View()), current, ready) ==>
        && loadAvg == (if ticks % TIMER_FREQ == 0
                       then LoadFormula(old(loadAvg), ready + if current == IDLE then 0 else 1) else old(loadAvg))
        && 0 <= loadAvg && forall t :: t in old(threads) ==> ThreadTicked(old(View()), View(), current, t)
    {
      ghost var was := View();
      TickThreads(was, current, ReadyCount(Tick(current, ready)));
      if TickFits(n, was, current, ready) { TickMeaning(n, was, current, ready); }
      ticks := ticks + 1;
      MlfqsOnTick(current, ready);
    }

    method MlfqsOnTick(current: nat, ready: nat)
      requires Listed() && current in threads && 0 < ticks && (ticks % 4 == 0 ==> AllLive(View()))
      modifies this`loadAvg, this`threads
      ensures View() == OnTick(old(View()).(ticks := ticks - 1), current, ReadyCount(Tick(current, ready)))
    {
      hide Decay, LoadStep, AddFpInt, DecayAll, PriorityAll;
      ghost var before := threads;
      var r := threads[current];
      threads := threads[current := r.(recentCpu := AddFpInt(r.recentCpu, 1))];
      assert threads == RunOne(before, current);
      if ticks % TIMER_FREQ == 0 {
        var readyThreads := ready;
        if current != IDLE {
          readyThreads := readyThreads + 1;
        }
        loadAvg := LoadStep(loadAvg, readyThreads);
        DecayKeys(loadAvg, threads);
        UpdateRecentCpuAll();
      }
      if ticks % 4 == 0 {
        UpdateAllPriority();
      }
    }
  }

  lemma DecayKeys(load: int, threads: map<nat, Thread>)
    ensures DecayAll(load, threads).Keys == threads.Keys
  {
  }
}
