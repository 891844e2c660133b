/**
  The disk-size scan: one thread a job, at most three of them scanning at a time. The bound is kept by
  a counter under a mutex with a condition variable that wakes one sleeper per release. Every place
  where another thread can run is a step of its own, and a sleeper may also wake for no reason.
*/
module SizeScan {
  import opened Wrappers

  /** Where a thread is. A thread holds the mutex exactly while Checking, Entered, Leaving or Signalled. */
  datatype Pc =
    | Start | Checking | Asleep | Woken | Entered
    | Scanning | Pushed | Leaving | Signalled | Done

  const LIMIT: nat := 3

  datatype Scan = Scan(
    pcs: seq<Pc>,
    lock: Option<nat>,
    count: int,
    results: seq<nat>,  // jobs whose result is waiting to be drained
    drained: seq<nat>)  // jobs whose result the window has taken

  predicate Holds(pc: Pc) { pc.Checking? || pc.Entered? || pc.Leaving? || pc.Signalled? }

  // Weights summed over all threads.
  function Occupies(pc: Pc): nat { if pc.Entered? || pc.Scanning? || pc.Pushed? then 1 else 0 }

  function InFlight(pc: Pc): nat { if pc.Woken? || pc.Checking? || pc.Leaving? then 1 else 0 }

  function Awoken(pc: Pc): nat { if pc.Woken? then 1 else 0 }

  /** Steps a thread can still take, with the wake-up it owes counted in. */
  function Rank(pc: Pc): nat {
    match pc
    case Start => 12
    case Woken => 12
    case Checking => 11
    case Asleep => 10
    case Entered => 9
    case Scanning => 8
    case Pushed => 7
    case Leaving => 6
    case Signalled => 3
    case Done => 0
  }

  function Total(pcs: seq<Pc>, w: Pc -> nat): nat {
    if pcs == [] then 0 else w(pcs[0]) + Total(pcs[1..], w)
  }

  lemma {:induction false} TotalAfterUpdate(pcs: seq<Pc>, w: Pc -> nat, t: nat, pc: Pc)
    requires t < |pcs|
    ensures Total(pcs[t := pc], w) + w(pcs[t]) == Total(pcs, w) + w(pc)
  {
    if t > 0 {
      assert pcs[t := pc][1..] == pcs[1..][t - 1 := pc];
      TotalAfterUpdate(pcs[1..], w, t - 1, pc);
    }
  }

  lemma {:induction false} TotalOfZeros(pcs: seq<Pc>, w: Pc -> nat)
    requires forall t :: 0 <= t < |pcs| ==> w(pcs[t]) == 0
    ensures Total(pcs, w) == 0
  {
    if pcs != [] { TotalOfZeros(pcs[1..], w); }
  }

  lemma {:induction false} TotalBound(pcs: seq<Pc>, w: Pc -> nat, m: nat)
    requires forall pc :: w(pc) <= m
    ensures Total(pcs, w) <= m * |pcs|
  {
    if pcs != [] {
      TotalBound(pcs[1..], w, m);
      assert m * |pcs| == m + m * |pcs[1..]|;
    }
  }

  datatype Step =
    | Acquire(t: nat)
    | Test(t: nat)
    | Unlock(t: nat)
    | Push(t: nat)
    | Leave(t: nat)
    | Notify(t: nat, woken: Option<nat>)
    | Release(t: nat)
    | Spurious(t: nat)
    | Drain

  predicate At(s: Scan, t: nat, pc: Pc) { t < |s.pcs| && s.pcs[t] == pc }

  predicate Enabled(s: Scan, m: Step) {
    match m
    case Acquire(t) => (At(s, t, Start) || At(s, t, Woken)) && s.lock.None?
    case Test(t) => At(s, t, Checking)
    case Unlock(t) => At(s, t, Entered)
    case Push(t) => At(s, t, Scanning)
    case Leave(t) => At(s, t, Pushed) && s.lock.None?
    case Notify(t, woken) =>
      At(s, t, Leaving) && if woken.Some? then At(s, woken.value, Asleep) else Asleep !in s.pcs
    case Release(t) => At(s, t, Signalled)
    case Spurious(t) => At(s, t, Asleep)
    case Drain => true
  }

  function Goto(s: Scan, t: nat, pc: Pc): Scan
    requires t < |s.pcs|
  {
    s.(pcs := s.pcs[t := pc])
  }

  function Apply(s: Scan, m: Step): Scan
    requires Enabled(s, m)
  {
    match m
    case Acquire(t) => Goto(s, t, Checking).(lock := Some(t))
    case Test(t) =>
      if s.count >= LIMIT then Goto(s, t, Asleep).(lock := None)
      else Goto(s, t, Entered).(count := s.count + 1)
    case Unlock(t) => Goto(s, t, Scanning).(lock := None)
    case Push(t) => Goto(s, t, Pushed).(results := s.results + [t])
    case Leave(t) => Goto(s, t, Leaving).(lock := Some(t), count := s.count - 1)
    case Notify(t, woken) =>
      var s1 := Goto(s, t, Signalled);
      if woken.Some? then Goto(s1, woken.value, Woken) else s1
    case Release(t) => Goto(s, t, Done).(lock := None)
    case Spurious(t) => Goto(s, t, Woken)
    case Drain => s.(results := [], drained := s.drained + s.results)
  }

  function Init(jobs: nat): Scan {
    Scan(seq(jobs, _ => Start), None, 0, [], [])
  }

  ghost predicate LockOk(s: Scan) {
    && (s.lock.Some? ==> s.lock.value < |s.pcs| && Holds(s.pcs[s.lock.value]))
    && (forall t :: 0 <= t < |s.pcs| && Holds(s.pcs[t]) ==> s.lock == Some(t))
  }

  /** The counter is the number of threads between their increment and their decrement, at most three. */
  ghost predicate CountOk(s: Scan) {
    s.count == Total(s.pcs, Occupies) <= LIMIT
  }

  /** No wake-up is lost: with a sleeper present, three threads are inside or on their way to looking. */
  ghost predicate WakeOk(s: Scan) {
    Asleep in s.pcs ==> s.count + Total(s.pcs, InFlight) >= LIMIT
  }

  predicate HasPushed(pc: Pc) { pc.Pushed? || pc.Leaving? || pc.Signalled? || pc.Done? }

  /** Each job's result is in the log once if its thread got past the push, and not at all before. */
  ghost predicate ResultsOk(s: Scan) {
    && (forall t :: 0 <= t < |s.pcs| ==> multiset(s.drained + s.results)[t] == if HasPushed(s.pcs[t]) then 1 else 0)
    && (forall t :: t in s.drained + s.results ==> t < |s.pcs|)
  }

  ghost predicate Inv(s: Scan) {
    LockOk(s) && CountOk(s) && WakeOk(s) && ResultsOk(s)
  }

  lemma InitOk(jobs: nat)
    ensures Inv(Init(jobs))
  {
    TotalOfZeros(Init(jobs).pcs, Occupies);
  }

  lemma StepKeepsLock(s: Scan, m: Step)
    requires LockOk(s) && Enabled(s, m)
    ensures LockOk(Apply(s, m))
  {}

  /** What one step does to a sum over the threads. */
  lemma TotalAfterStep(s: Scan, m: Step, w: Pc -> nat)
    requires Enabled(s, m)
    ensures match m
            case Drain => Apply(s, m).pcs == s.pcs
            case Notify(t, woken) =>
              Total(Apply(s, m).pcs, w) + w(Leaving) + (if woken.Some? then w(Asleep) else 0)
              == Total(s.pcs, w) + w(Signalled) + (if woken.Some? then w(Woken) else 0)
            case _ => Total(Apply(s, m).pcs, w) + w(s.pcs[m.t]) == Total(s.pcs, w) + w(Apply(s, m).pcs[m.t])
  {
    match m
    case Drain =>
    case Notify(t, woken) =>
      TotalAfterUpdate(s.pcs, w, t, Signalled);
      if woken.Some? { TotalAfterUpdate(s.pcs[t := Signalled], w, woken.value, Woken); }
    case _ => TotalAfterUpdate(s.pcs, w, m.t, Apply(s, m).pcs[m.t]);
  }

  lemma StepKeepsCount(s: Scan, m: Step)
    requires CountOk(s) && Enabled(s, m)
    ensures CountOk(Apply(s, m))
  {
    TotalAfterStep(s, m, Occupies);
  }

  lemma StepKeepsWake(s: Scan, m: Step)
    requires WakeOk(s) && Enabled(s, m)
    ensures WakeOk(Apply(s, m))
  {
    TotalAfterStep(s, m, InFlight);
    var s' := Apply(s, m);
    if Asleep in s'.pcs && !(m.Test? && s.count >= LIMIT) {
      var u :| 0 <= u < |s'.pcs| && s'.pcs[u] == Asleep;
      assert s.pcs[u] == Asleep;
    }
  }

  lemma PushKeepsResults(s: Scan, t: nat)
    requires ResultsOk(s) && Enabled(s, Push(t))
    ensures ResultsOk(Apply(s, Push(t)))
  {
    var log := s.drained + s.results;
    assert s.drained + (s.results + [t]) == log + [t];
    assert multiset(log + [t]) == multiset(log) + multiset{t};
  }

  lemma StepKeepsResults(s: Scan, m: Step)
    requires ResultsOk(s) && Enabled(s, m)
    ensures ResultsOk(Apply(s, m))
  {
    if m.Push? {
      PushKeepsResults(s, m.t);
    } else {
      var s' := Apply(s, m);
      assert s'.drained + s'.results == s.drained + s.results;
      assert |s'.pcs| == |s.pcs| && forall t :: 0 <= t < |s.pcs| ==> HasPushed(s'.pcs[t]) == HasPushed(s.pcs[t]);
    }
  }

  lemma StepKeepsInv(s: Scan, m: Step)
    requires Inv(s) && Enabled(s, m)
    ensures Inv(Apply(s, m))
  {
    StepKeepsLock(s, m);
    StepKeepsCount(s, m);
    StepKeepsWake(s, m);
    StepKeepsResults(s, m);
  }

  ghost predicate EnabledRun(s: Scan, ms: seq<Step>)
    decreases |ms|
  {
    ms == [] || (Enabled(s, ms[0]) && EnabledRun(Apply(s, ms[0]), ms[1..]))
  }

  ghost function Run(s: Scan, ms: seq<Step>): Scan
    requires EnabledRun(s, ms)
    decreases |ms|
  {
    if ms == [] then s else Run(Apply(s, ms[0]), ms[1..])
  }

  /** Every interleaving of the threads, from the start of the scan. */
  lemma {:induction false} RunKeepsInv(s: Scan, ms: seq<Step>)
    requires Inv(s) && EnabledRun(s, ms)
    ensures Inv(Run(s, ms)) && |Run(s, ms).pcs| == |s.pcs|
    decreases |ms|
  {
    if ms != [] {
      StepKeepsInv(s, ms[0]);
      RunKeepsInv(Apply(s, ms[0]), ms[1..]);
    }
  }

  /** In every reachable state at most three threads scan, and with the mutex free and a sleeper
      present, the running and the already woken threads together are at least three. */
  lemma BoundAndNoLostWakeup(jobs: nat, ms: seq<Step>)
    requires EnabledRun(Init(jobs), ms)
    ensures var s := Run(Init(jobs), ms);
            && s.count == Total(s.pcs, Occupies) <= 3
            && (s.lock.None? && Asleep in s.pcs ==> s.count + Total(s.pcs, Awoken) >= 3)
  {
    InitOk(jobs);
    RunKeepsInv(Init(jobs), ms);
    var s := Run(Init(jobs), ms);
    if s.lock.None? {
      SameTotal(s.pcs, InFlight, Awoken);
    }
  }

  lemma {:induction false} SameTotal(pcs: seq<Pc>, v: Pc -> nat, w: Pc -> nat)
    requires forall t :: 0 <= t < |pcs| ==> v(pcs[t]) == w(pcs[t])
    ensures Total(pcs, v) == Total(pcs, w)
  {
    if pcs != [] { SameTotal(pcs[1..], v, w); }
  }

  /** A sleeper may wake at any time for no reason, and has then to look again like one that was woken. */
  lemma SleepersMayWake(s: Scan, t: nat)
    requires t < |s.pcs|
    ensures Enabled(s, Spurious(t)) <==> s.pcs[t] == Asleep
    ensures s.pcs[t] == Asleep ==> Apply(s, Spurious(t)) == s.(pcs := s.pcs[t := Woken])
    ensures s.pcs[t] == Woken && s.lock.None? ==> Enabled(s, Acquire(t)) && Apply(s, Acquire(t)).pcs[t] == Checking
  {}

  /** A step some thread takes of its own accord. */
  predicate Progress(m: Step) { !m.Spurious? && !m.Drain? }

  ghost predicate AllDone(s: Scan) { forall t :: 0 <= t < |s.pcs| ==> s.pcs[t] == Done }

  function StepOfHolder(s: Scan, t: nat): Step
    requires t < |s.pcs| && Holds(s.pcs[t])
  {
    match s.pcs[t]
    case Checking => Test(t)
    case Entered => Unlock(t)
    case Signalled => Release(t)
    case _ => Notify(t, if Asleep in s.pcs then Some(FirstAsleep(s.pcs)) else None)
  }

  function FirstAsleep(pcs: seq<Pc>): (u: nat)
    requires Asleep in pcs
    ensures u < |pcs| && pcs[u] == Asleep
  {
    if pcs[0] == Asleep then 0 else 1 + FirstAsleep(pcs[1..])
  }

  /** No deadlock: until every thread is done, some thread can step without a spurious wake-up. */
  lemma SomeThreadCanStep(s: Scan) returns (m: Step)
    requires Inv(s) && !AllDone(s)
    ensures Progress(m) && Enabled(s, m)
  {
    if s.lock.Some? {
      return StepOfHolder(s, s.lock.value);
    }
    if t: nat :| t < |s.pcs| && CanGo(s.pcs[t]) {
      return match s.pcs[t] case Scanning => Push(t) case Pushed => Leave(t) case _ => Acquire(t);
    }
    OnlySleepersLeft(s);
    assert false;
  }

  /**
    With the mutex free and nobody able to go there are no sleepers either: three threads would be inside or
    on their way.
  */
  lemma OnlySleepersLeft(s: Scan)
    requires Inv(s) && s.lock.None? && forall t :: 0 <= t < |s.pcs| ==> !CanGo(s.pcs[t])
    ensures AllDone(s)
  {
    assert forall t :: 0 <= t < |s.pcs| ==> s.pcs[t].Asleep? || s.pcs[t].Done?;
    TotalOfZeros(s.pcs, Occupies);
    TotalOfZeros(s.pcs, InFlight);
  }

  /** A thread that can step whenever the mutex is free. */
  predicate CanGo(pc: Pc) { pc.Start? || pc.Woken? || pc.Scanning? || pc.Pushed? }

  function Count(ms: seq<Step>, spurious: bool): nat {
    if ms == [] then 0
    else (if (if spurious then ms[0].Spurious? else Progress(ms[0])) then 1 else 0) + Count(ms[1..], spurious)
  }

  lemma StepLowersRank(s: Scan, m: Step)
    requires Enabled(s, m)
    ensures Total(Apply(s, m).pcs, Rank) + (if Progress(m) then 1 else 0)
            <= Total(s.pcs, Rank) + (if m.Spurious? then 2 else 0)
  {
    TotalAfterStep(s, m, Rank);
  }

  /** Threads cannot step forever: twelve steps a job, and two more for each spurious wake-up. */
  lemma {:induction false} StepsAreBounded(s: Scan, ms: seq<Step>)
    requires EnabledRun(s, ms)
    ensures Count(ms, false) + Total(Run(s, ms).pcs, Rank) <= Total(s.pcs, Rank) + 2 * Count(ms, true)
    decreases |ms|
  {
    if ms != [] {
      StepLowersRank(s, ms[0]);
      StepsAreBounded(Apply(s, ms[0]), ms[1..]);
    }
  }

  lemma ScanLength(jobs: nat, ms: seq<Step>)
    requires EnabledRun(Init(jobs), ms)
    ensures Count(ms, false) <= 12 * jobs + 2 * Count(ms, true)
  {
    StepsAreBounded(Init(jobs), ms);
    TotalBound(Init(jobs).pcs, Rank, 12);
  }

  lemma DoneIffStuck(s: Scan)
    requires Inv(s)
    ensures AllDone(s) <==> forall m :: Progress(m) ==> !Enabled(s, m)
  {
    if !AllDone(s) {
      var m := SomeThreadCanStep(s);
    }
  }

  lemma DoneMeansAllLogged(s: Scan)
    requires Inv(s) && AllDone(s)
    ensures forall t: nat :: multiset(s.drained + s.results)[t] == if t < |s.pcs| then 1 else 0
  {
    forall t: nat ensures multiset(s.drained + s.results)[t] == if t < |s.pcs| then 1 else 0 {
      if t >= |s.pcs| { assert t !in s.drained + s.results; }
    }
  }

  /** A scan that can go no further has finished, and every job's result was logged exactly once. */
  lemma ScanCompletes(jobs: nat, ms: seq<Step>)
    requires EnabledRun(Init(jobs), ms)
    ensures var s := Run(Init(jobs), ms);
            && (AllDone(s) <==> forall m :: Progress(m) ==> !Enabled(s, m))
            && (AllDone(s) ==> forall t: nat :: multiset(s.drained + s.results)[t] == if t < jobs then 1 else 0)
  {
    InitOk(jobs);
    RunKeepsInv(Init(jobs), ms);
    DoneIffStuck(Run(Init(jobs), ms));
    if AllDone(Run(Init(jobs), ms)) { DoneMeansAllLogged(Run(Init(jobs), ms)); }
  }
}
