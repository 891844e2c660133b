/**
  The restart loop both process supervisors run, one task for each supervised workspace, and the map of
  stop signals the rest of the program reaches the tasks through.

  A stop signal holds at most one permit; waiting for it takes the permit. A `select!` with several
  ready branches may take any of them, and a 2 s sleep is not ready when it is polled for the first time.
*/
module RestartLoop {
  datatype Timer = Fresh | Pending | Elapsed

  datatype Pc =
    | Spawning
    | SpawnFailed(timer: Timer)  // waiting: stop signal or retry delay
    | Running(exited: bool)      // waiting: child exit or stop signal
    | BackOff(timer: Timer)      // waiting: stop signal or restart delay
    | Stopping(alive: bool)      // graceful stop of the child
    | Leaving                    // loop left, map entry not yet removed

  /** What the loop itself sees: where it is, and whether its stop signal holds a permit. */
  datatype Local = Local(pc: Pc, permit: bool)

  datatype Event =
    | SpawnOk | SpawnErr
    | FirstPoll | Tick | TakeTimer | TakeStop
    | ChildExits | TakeExit
    | StopEnds

  predicate WaitsOn(pc: Pc, timer: Timer) { pc == SpawnFailed(timer) || pc == BackOff(timer) }

  predicate HasChild(pc: Pc) { pc == Running(false) || pc == Stopping(true) }

  predicate Ready(l: Local, e: Event) {
    match e
    case SpawnOk => l.pc.Spawning?
    case SpawnErr => l.pc.Spawning?
    case FirstPoll => WaitsOn(l.pc, Fresh)
    case Tick => WaitsOn(l.pc, Pending)
    case TakeTimer => WaitsOn(l.pc, Elapsed)
    case TakeStop => l.permit && (l.pc.Running? || WaitsOn(l.pc, Pending) || WaitsOn(l.pc, Elapsed))
    case ChildExits => HasChild(l.pc)
    case TakeExit => l.pc == Running(true)
    case StopEnds => l.pc.Stopping?
  }

  function React(l: Local, e: Event): Local
    requires Ready(l, e)
  {
    match e
    case SpawnOk => l.(pc := Running(false))
    case SpawnErr => l.(pc := SpawnFailed(Fresh))
    case FirstPoll =>
      if l.permit then Local(Leaving, false)
      else l.(pc := if l.pc.BackOff? then BackOff(Pending) else SpawnFailed(Pending))
    case Tick => l.(pc := if l.pc.BackOff? then BackOff(Elapsed) else SpawnFailed(Elapsed))
    case TakeTimer => l.(pc := Spawning)
    case TakeStop => Local(if l.pc.Running? then Stopping(!l.pc.exited) else Leaving, false)
    case ChildExits => l.(pc := if l.pc.Running? then Running(true) else Stopping(false))
    case TakeExit => l.(pc := BackOff(Fresh))
    case StopEnds => l.(pc := Leaving)
  }

  // ---- a signalled loop ends ----

  /** The loop has been told to stop, or is already on its way out. */
  predicate Ending(l: Local) { l.permit || l.pc.Stopping? || l.pc.Leaving? }

  /** Spawns an ending loop may still make. */
  function SpawnsLeft(pc: Pc): nat {
    if pc.Spawning? || WaitsOn(pc, Pending) || WaitsOn(pc, Elapsed) then 1 else 0
  }

  /** Events an ending loop may still see, its removal from the map included. */
  function EventsLeft(pc: Pc): nat {
    if WaitsOn(pc, Pending) then 8 else if WaitsOn(pc, Elapsed) then 7 else
    match pc
    case Spawning => 6
    case Running(exited) => if exited then 4 else 5
    case Stopping(alive) => if alive then 3 else 2
    case Leaving => 1
    case _ => 2
  }

  predicate IsSpawn(e: Event) { e.SpawnOk? || e.SpawnErr? }

  lemma EndingLoop(l: Local, e: Event)
    requires Ending(l) && Ready(l, e)
    ensures Ending(React(l, e))
    ensures SpawnsLeft(React(l, e).pc) + (if IsSpawn(e) then 1 else 0) <= SpawnsLeft(l.pc) <= 1
    ensures EventsLeft(React(l, e).pc) < EventsLeft(l.pc) <= 8
  {}

  lemma OtherLoop(l: Local, e: Event)
    requires !Ending(l) && Ready(l, e)
    ensures !Ending(React(l, e))
  {}

  /** The loop waits out a delay and comes to its next spawn. */
  ghost predicate Respawns(l: Local) {
    && Ready(l, FirstPoll) && Ready(React(l, FirstPoll), Tick)
    && Ready(React(React(l, FirstPoll), Tick), TakeTimer)
    && React(React(React(l, FirstPoll), Tick), TakeTimer) == Local(Spawning, false)
  }

  /**
    A loop can go on until it is left. One that is not told to stop never is: after its child's exit or a failed
    spawn it waits and spawns again. A stop taken while waiting leaves at once, one taken while running first ends
    the child.
  */
  lemma LoopGoesOn(l: Local)
    ensures (exists e :: Ready(l, e)) <==> !l.pc.Leaving?
    ensures !l.permit && Ready(l, TakeExit) ==> Respawns(React(l, TakeExit))
    ensures !l.permit && Ready(l, SpawnErr) ==> Respawns(React(l, SpawnErr))
    ensures Ready(l, SpawnOk) ==> React(l, SpawnOk).pc == Running(false)
    ensures Ready(l, TakeStop) ==>
              React(l, TakeStop) == Local(if l.pc.Running? then Stopping(!l.pc.exited) else Leaving, false)
  {
    var e := match l.pc
      case Spawning => SpawnOk
      case SpawnFailed(timer) => if timer.Fresh? then FirstPoll else if timer.Pending? then Tick else TakeTimer
      case BackOff(timer) => if timer.Fresh? then FirstPoll else if timer.Pending? then Tick else TakeTimer
      case Running(exited) => if exited then TakeExit else ChildExits
      case Stopping(_) => StopEnds
      case Leaving => StopEnds;
    if !l.pc.Leaving? { assert Ready(l, e); }
  }

  /** A spawn may work or fail, a child may exit while it lives, and of several ready branches any may be taken. */
  lemma OutcomesAreOpen(l: Local)
    ensures l.pc.Spawning? ==> Ready(l, SpawnOk) && Ready(l, SpawnErr)
    ensures Ready(l, ChildExits) <==> l.pc == Running(false) || l.pc == Stopping(true)
    ensures l.permit && (l.pc == BackOff(Elapsed) || l.pc == SpawnFailed(Elapsed)) ==>
              Ready(l, TakeTimer) && Ready(l, TakeStop)
    ensures l.permit && l.pc == Running(true) ==> Ready(l, TakeExit) && Ready(l, TakeStop)
  {}

  /** What the loop of an ending task can do next by itself, until only its removal is left. */
  function NextEvent(l: Local): (e: Event)
    requires Ending(l) && !l.pc.Leaving?
    ensures Ready(l, e)
  {
    match l.pc
    case Spawning => SpawnOk
    case Running(_) => TakeStop
    case Stopping(_) => StopEnds
    case SpawnFailed(timer) => if timer.Fresh? then FirstPoll else TakeStop
    case BackOff(timer) => if timer.Fresh? then FirstPoll else TakeStop
  }

  // ---- all supervised workspaces ----

  datatype Task = Task(name: string, pc: Pc)

  /** Tasks and stop signals made by the same `start` share a number. */
  datatype World = World(
    procs: map<string, nat>,
    permits: set<nat>,
    tasks: map<nat, Task>,
    children: multiset<nat>,
    next: nat)

  const EMPTY := World(map[], {}, map[], multiset{}, 0)

  datatype Move = Start(name: string) | Stop(name: string) | Loop(t: nat, e: Event) | Remove(t: nat)

  function LocalOf(w: World, t: nat): Local
    requires t in w.tasks
  {
    Local(w.tasks[t].pc, t in w.permits)
  }

  predicate Enabled(w: World, m: Move) {
    match m
    case Start(_) => true
    case Stop(_) => true
    case Loop(t, e) => t in w.tasks && Ready(LocalOf(w, t), e)
    case Remove(t) => t in w.tasks && w.tasks[t].pc.Leaving?
  }

  function ApplyStart(w: World, name: string): World {
    if name in w.procs then w
    else w.(procs := w.procs[name := w.next], tasks := w.tasks[w.next := Task(name, Spawning)], next := w.next + 1)
  }

  function ApplyStop(w: World, name: string): World {
    if name in w.procs then w.(permits := w.permits + {w.procs[name]}) else w
  }

  function ApplyLoop(w: World, t: nat, e: Event): World
    requires t in w.tasks && Ready(LocalOf(w, t), e)
  {
    var l := React(LocalOf(w, t), e);
    w.(tasks := w.tasks[t := Task(w.tasks[t].name, l.pc)],
       permits := if l.permit then w.permits else w.permits - {t},
       children := w.children[t := ChildrenAfter(w.children[t], e)])
  }

  /** Live children of the task an event happens to; ending a graceful stop leaves none. */
  function ChildrenAfter(alive: nat, e: Event): nat {
    match e
    case SpawnOk => alive + 1
    case ChildExits => if alive > 0 then alive - 1 else 0
    case StopEnds => 0
    case _ => alive
  }

  function ApplyRemove(w: World, t: nat): World
    requires t in w.tasks
  {
    w.(procs := w.procs - {w.tasks[t].name}, tasks := w.tasks - {t}, permits := w.permits - {t})
  }

  function Apply(w: World, m: Move): World
    requires Enabled(w, m)
  {
    match m
    case Start(name) => ApplyStart(w, name)
    case Stop(name) => ApplyStop(w, name)
    case Loop(t, e) => ApplyLoop(w, t, e)
    case Remove(t) => ApplyRemove(w, t)
  }

  /** Map entries and live tasks match one to one. */
  ghost predicate EntriesMatch(w: World) {
    && (forall n :: n in w.procs ==> w.procs[n] in w.tasks && w.tasks[w.procs[n]].name == n)
    && (forall t :: t in w.tasks ==> w.tasks[t].name in w.procs && w.procs[w.tasks[t].name] == t && t < w.next)
    && (forall t :: t in w.permits ==> t in w.tasks)
  }

  /** A task has one live child where its loop says it has a child, and none elsewhere. */
  ghost predicate ChildrenMatch(w: World) {
    forall t :: w.children[t] == if t in w.tasks && HasChild(w.tasks[t].pc) then 1 else 0
  }

  ghost predicate Inv(w: World) { EntriesMatch(w) && ChildrenMatch(w) }

  lemma StepKeepsEntries(w: World, m: Move)
    requires EntriesMatch(w) && Enabled(w, m)
    ensures EntriesMatch(Apply(w, m))
  {}

  lemma StepKeepsChildren(w: World, m: Move)
    requires Inv(w) && Enabled(w, m)
    ensures ChildrenMatch(Apply(w, m))
  {
    if m.Loop? { ChildFollowsLoop(LocalOf(w, m.t), m.e); }
  }

  lemma ChildFollowsLoop(l: Local, e: Event)
    requires Ready(l, e)
    ensures ChildrenAfter(if HasChild(l.pc) then 1 else 0, e) == if HasChild(React(l, e).pc) then 1 else 0
  {}

  lemma StepKeepsInv(w: World, m: Move)
    requires Inv(w) && Enabled(w, m)
    ensures Inv(Apply(w, m))
  {
    StepKeepsEntries(w, m);
    StepKeepsChildren(w, m);
  }

  ghost predicate EnabledRun(w: World, ms: seq<Move>)
    decreases |ms|
  {
    ms == [] || (Enabled(w, ms[0]) && EnabledRun(Apply(w, ms[0]), ms[1..]))
  }

  ghost function Run(w: World, ms: seq<Move>): World
    requires EnabledRun(w, ms)
    decreases |ms|
  {
    if ms == [] then w else Run(Apply(w, ms[0]), ms[1..])
  }

  /** At every point of every run, entries, tasks and children agree; no task has two children. */
  lemma {:induction false} RunKeepsInv(w: World, ms: seq<Move>)
    requires Inv(w) && EnabledRun(w, ms)
    ensures Inv(Run(w, ms))
    ensures forall t: nat :: Run(w, ms).children[t] <= 1
    decreases |ms|
  {
    if ms != [] {
      StepKeepsInv(w, ms[0]);
      RunKeepsInv(Apply(w, ms[0]), ms[1..]);
    }
  }

  /** From an empty supervisor, over every run. */
  lemma ReachableOk(ms: seq<Move>)
    requires EnabledRun(EMPTY, ms)
    ensures Inv(Run(EMPTY, ms)) && forall t: nat :: Run(EMPTY, ms).children[t] <= 1
  {
    RunKeepsInv(EMPTY, ms);
  }

  predicate Doomed(w: World, t: nat) { t in w.tasks && Ending(LocalOf(w, t)) }

  predicate Gone(w: World, t: nat) { t < w.next && t !in w.tasks }

  function SpawnBudget(w: World, t: nat): nat { if t in w.tasks then SpawnsLeft(w.tasks[t].pc) else 0 }

  function MoveBudget(w: World, t: nat): nat { if t in w.tasks then EventsLeft(w.tasks[t].pc) else 0 }

  predicate Spawns(m: Move, t: nat) { m.Loop? && m.t == t && IsSpawn(m.e) }

  predicate IsMoveOf(m: Move, t: nat) { (m.Loop? || m.Remove?) && m.t == t }

  lemma DoomedStep(w: World, t: nat, m: Move)
    requires Inv(w) && Enabled(w, m) && (Doomed(w, t) || Gone(w, t))
    ensures Doomed(Apply(w, m), t) || Gone(Apply(w, m), t)
    ensures SpawnBudget(Apply(w, m), t) + (if Spawns(m, t) then 1 else 0) <= SpawnBudget(w, t)
    ensures MoveBudget(Apply(w, m), t) + (if IsMoveOf(m, t) then 1 else 0) <= MoveBudget(w, t)
  {
    if m.Loop? && m.t == t { EndingLoop(LocalOf(w, t), m.e); }
  }

  function CountSpawns(ms: seq<Move>, t: nat): nat {
    if ms == [] then 0 else (if Spawns(ms[0], t) then 1 else 0) + CountSpawns(ms[1..], t)
  }

  function CountMoves(ms: seq<Move>, t: nat): nat {
    if ms == [] then 0 else (if IsMoveOf(ms[0], t) then 1 else 0) + CountMoves(ms[1..], t)
  }

  lemma {:induction false} DoomedRun(w: World, t: nat, ms: seq<Move>)
    requires Inv(w) && EnabledRun(w, ms) && (Doomed(w, t) || Gone(w, t))
    ensures Doomed(Run(w, ms), t) || Gone(Run(w, ms), t)
    ensures CountSpawns(ms, t) <= SpawnBudget(w, t)
    ensures CountMoves(ms, t) + MoveBudget(Run(w, ms), t) <= MoveBudget(w, t)
    decreases |ms|
  {
    if ms != [] {
      DoomedStep(w, t, ms[0]);
      StepKeepsInv(w, ms[0]);
      DoomedRun(Apply(w, ms[0]), t, ms[1..]);
    }
  }

  /**
    After a stop, whatever state the loop is in and whatever else happens: at most one further spawn, at
    most eight further moves, and the task is out of moves only when it and its map entry are gone.
  */
  lemma StopTerminates(w: World, name: string, ms: seq<Move>)
    requires Inv(w) && name in w.procs && EnabledRun(ApplyStop(w, name), ms)
    ensures var t, w' := w.procs[name], Run(ApplyStop(w, name), ms);
            && CountSpawns(ms, t) <= 1
            && CountMoves(ms, t) <= 8
            && (t !in w'.tasks <==> forall m :: IsMoveOf(m, t) ==> !Enabled(w', m))
            && (t !in w'.tasks ==> name !in w'.procs || w'.procs[name] != t)
  {
    var t, w1 := w.procs[name], ApplyStop(w, name);
    StepKeepsInv(w, Stop(name));
    DoomedRun(w1, t, ms);
    RunKeepsInv(w1, ms);
    CanMoveUntilGone(Run(w1, ms), t);
  }

  /** A task on its way out can move as long as it is there. */
  lemma CanMoveUntilGone(w: World, t: nat)
    requires Doomed(w, t) || t !in w.tasks
    ensures t !in w.tasks <==> forall m :: IsMoveOf(m, t) ==> !Enabled(w, m)
  {
    if t in w.tasks {
      var l := LocalOf(w, t);
      var m := if l.pc.Leaving? then Remove(t) else Loop(t, NextEvent(l));
      assert IsMoveOf(m, t) && Enabled(w, m);
    }
  }

  /** Signalling every entry dooms every task. */
  lemma StopAllDoomsAll(w: World)
    requires Inv(w)
    ensures var w' := w.(permits := w.permits + w.procs.Values);
            Inv(w') && forall t :: t in w'.tasks ==> Doomed(w', t)
  {
    forall t | t in w.tasks ensures t in w.procs.Values { assert w.procs[w.tasks[t].name] == t; }
  }

  // ---- one reconciliation pass ----

  /** The workspaces a run starts, and those it stops. */
  function Started(ms: seq<Move>): set<string> { set m | m in ms && m.Start? :: m.name }

  function Stopped(ms: seq<Move>): set<string> { set m | m in ms && m.Stop? :: m.name }

  lemma CallsOf(ms: seq<Move>, n: string)
    ensures n in Started(ms) <==> Start(n) in ms
    ensures n in Stopped(ms) <==> Stop(n) in ms
  {
    if Start(n) in ms { assert Start(n).name in Started(ms); }
    if Stop(n) in ms { assert Stop(n).name in Stopped(ms); }
  }

  lemma CallsOfConcat(ms: seq<Move>, ms': seq<Move>)
    ensures Started(ms + ms') == Started(ms) + Started(ms') && Stopped(ms + ms') == Stopped(ms) + Stopped(ms')
  {}

  lemma NextMove(w: World, ms: seq<Move>, m: Move)
    requires EnabledRun(w, ms) && Enabled(Run(w, ms), m)
    ensures EnabledRun(w, ms + [m]) && Run(w, ms + [m]) == Apply(Run(w, ms), m)
    ensures Started(ms + [m]) == Started(ms) + if m.Start? then {m.name} else {}
    ensures Stopped(ms + [m]) == Stopped(ms) + if m.Stop? then {m.name} else {}
  {
    RunOneMore(w, ms, m);
    CallsOfConcat(ms, [m]);
    OneCall(m);
  }

  /**
    A run in which one pass is made: what is eligible and had no entry as it began is started, and what had
    one and is not to be kept is signalled. Before, between and after these calls tasks go their own way;
    nobody else starts or stops anything.
  */
  ghost predicate IsPass(w: World, ms: seq<Move>, eligible: set<string>, keep: set<string>) {
    EnabledRun(w, ms) && Started(ms) == eligible - w.procs.Keys && Stopped(ms) == w.procs.Keys - keep
  }

  /** Every signalled task is gone. */
  ghost predicate Drained(w: World) { forall t :: !Doomed(w, t) }

  /** The workspace runs and its task has not been told to stop. */
  predicate Survives(w: World, n: string) { n in w.procs && !Doomed(w, w.procs[n]) }

  lemma TaskMoveKeepsSurvivor(w: World, m: Move, n: string)
    requires Inv(w) && Enabled(w, m) && (m.Loop? || m.Remove?)
    ensures Survives(Apply(w, m), n) <==> Survives(w, n)
    ensures n in Apply(w, m).procs ==> n in w.procs && Apply(w, m).procs[n] == w.procs[n]
  {
    if m.Loop? {
      if Ending(LocalOf(w, m.t)) { EndingLoop(LocalOf(w, m.t), m.e); } else { OtherLoop(LocalOf(w, m.t), m.e); }
    }
  }

  lemma StepWithoutStart(w: World, m: Move, n: string)
    requires Inv(w) && Enabled(w, m) && m != Start(n)
    ensures Survives(Apply(w, m), n) <==> Survives(w, n) && m != Stop(n)
    ensures n in Apply(w, m).procs ==> n in w.procs && Apply(w, m).procs[n] == w.procs[n]
  {
    if m.Loop? || m.Remove? { TaskMoveKeepsSurvivor(w, m, n); }
  }

  lemma StepWithoutStop(w: World, m: Move, n: string)
    requires Inv(w) && Enabled(w, m) && m != Stop(n)
    requires n in w.procs ==> Survives(w, n)
    ensures Survives(Apply(w, m), n) <==> Survives(w, n) || m == Start(n)
    ensures n in Apply(w, m).procs ==> Survives(Apply(w, m), n)
  {
    if m.Loop? || m.Remove? { TaskMoveKeepsSurvivor(w, m, n); }
  }

  /** A workspace nobody starts survives exactly when it did and nobody stops it. */
  lemma {:induction false} RunWithoutStart(w: World, ms: seq<Move>, n: string)
    requires Inv(w) && EnabledRun(w, ms) && Start(n) !in ms
    ensures Survives(Run(w, ms), n) <==> Survives(w, n) && Stop(n) !in ms
    ensures n in Run(w, ms).procs ==> n in w.procs && Run(w, ms).procs[n] == w.procs[n]
    decreases |ms|
  {
    if ms != [] {
      StepKeepsInv(w, ms[0]);
      StepWithoutStart(w, ms[0], n);
      RunWithoutStart(Apply(w, ms[0]), ms[1..], n);
    }
  }

  /**
    A workspace nobody stops survives exactly when it did or somebody starts it, unless its old task was on
    its way out.
  */
  lemma {:induction false} RunWithoutStop(w: World, ms: seq<Move>, n: string)
    requires Inv(w) && EnabledRun(w, ms) && Stop(n) !in ms
    requires n in w.procs ==> Survives(w, n)
    ensures Survives(Run(w, ms), n) <==> Survives(w, n) || Start(n) in ms
    decreases |ms|
  {
    if ms != [] {
      StepKeepsInv(w, ms[0]);
      StepWithoutStop(w, ms[0], n);
      RunWithoutStop(Apply(w, ms[0]), ms[1..], n);
    }
  }

  /** What a pass does to one workspace, whatever tasks do meanwhile. */
  lemma PassOne(w: World, ms: seq<Move>, eligible: set<string>, keep: set<string>, n: string)
    requires Inv(w) && IsPass(w, ms, eligible, keep) && eligible <= keep
    ensures Survives(Run(w, ms), n) <==> (Survives(w, n) && n in keep) || (n in eligible && n !in w.procs)
  {
    CallsOf(ms, n);
    if n in w.procs { RunWithoutStart(w, ms, n); } else { RunWithoutStop(w, ms, n); }
  }

  lemma DrainedMeansSurvives(w: World, n: string)
    requires Drained(w)
    ensures n in w.procs <==> Survives(w, n)
  {}

  /**
    After a pass, once every signalled task is gone, what runs is to be kept; and everything eligible
    runs exactly when no eligible workspace still had a task on its way out as the pass began.
  */
  lemma SyncThenDrain(w: World, ms: seq<Move>, eligible: set<string>, keep: set<string>)
    requires Inv(w) && IsPass(w, ms, eligible, keep) && eligible <= keep && Drained(Run(w, ms))
    ensures Inv(Run(w, ms)) && Run(w, ms).procs.Keys <= keep
    ensures eligible <= Run(w, ms).procs.Keys <==> forall n :: n in eligible && n in w.procs ==> !Doomed(w, w.procs[n])
  {
    RunKeepsInv(w, ms);
    forall n
      ensures n in Run(w, ms).procs <==> (Survives(w, n) && n in keep) || (n in eligible && n !in w.procs)
    {
      PassOne(w, ms, eligible, keep, n);
      DrainedMeansSurvives(Run(w, ms), n);
    }
  }

  /** A pass over a settled supervisor starts and stops nothing, and every entry stays. */
  lemma SyncIsStable(w: World, ms: seq<Move>, eligible: set<string>, keep: set<string>)
    requires Inv(w) && Drained(w) && eligible <= w.procs.Keys <= keep && IsPass(w, ms, eligible, keep)
    ensures Started(ms) == Stopped(ms) == {}
    ensures Run(w, ms).procs == w.procs
  {
    forall n ensures n in Run(w, ms).procs <==> n in w.procs
             ensures n in w.procs ==> Run(w, ms).procs[n] == w.procs[n]
    {
      CallsOf(ms, n);
      RunWithoutStart(w, ms, n);
      DrainedMeansSurvives(w, n);
    }
  }

  /** The pass after a drained pass leaves everything eligible running, and from then on passes change nothing. */
  lemma SecondPassSettles(w: World, ms: seq<Move>, ms': seq<Move>, ms'': seq<Move>,
                          eligible: set<string>, keep: set<string>)
    requires Inv(w) && eligible <= keep && IsPass(w, ms, eligible, keep) && Drained(Run(w, ms))
    requires var w1 := Run(w, ms);
             && IsPass(w1, ms', eligible, keep) && Drained(Run(w1, ms'))
             && IsPass(Run(w1, ms'), ms'', eligible, keep)
    ensures var w2 := Run(Run(w, ms), ms');
            && eligible <= w2.procs.Keys <= keep
            && Started(ms'') == Stopped(ms'') == {}
            && Run(w2, ms'').procs == w2.procs
  {
    SyncThenDrain(w, ms, eligible, keep);
    SyncThenDrain(Run(w, ms), ms', eligible, keep);
    SyncIsStable(Run(Run(w, ms), ms'), ms'', eligible, keep);
  }

  // ---- passes can always be made, and signalled tasks can always be drained ----

  /** A run of task moves at whose end every signalled task is gone. */
  ghost predicate Drains(w: World, ms: seq<Move>) {
    EnabledRun(w, ms) && (forall m :: m in ms ==> (m.Loop? || m.Remove?)) && Drained(Run(w, ms))
  }

  lemma {:induction false} RunInTwoParts(w: World, ms: seq<Move>, ms': seq<Move>)
    requires EnabledRun(w, ms) && EnabledRun(Run(w, ms), ms')
    ensures EnabledRun(w, ms + ms') && Run(w, ms + ms') == Run(Run(w, ms), ms')
    decreases |ms|
  {
    if ms == [] {
      assert ms + ms' == ms';
    } else {
      assert (ms + ms')[1..] == ms[1..] + ms';
      RunInTwoParts(Apply(w, ms[0]), ms[1..], ms');
    }
  }

  lemma LoopKeepsOthers(w: World, t: nat, e: Event)
    requires t in w.tasks && Ready(LocalOf(w, t), e)
    ensures var w' := ApplyLoop(w, t, e); w'.tasks - {t} == w.tasks - {t} && w'.permits - {t} == w.permits - {t}
  {}

  /** The moves of one ending task alone take it, and nothing else, out of the world. */
  lemma {:induction false} FinishOne(w: World, t: nat) returns (ms: seq<Move>)
    requires Inv(w) && Doomed(w, t)
    ensures EnabledRun(w, ms) && forall m :: m in ms ==> IsMoveOf(m, t)
    ensures Run(w, ms).tasks == w.tasks - {t} && Run(w, ms).permits == w.permits - {t}
    decreases MoveBudget(w, t)
  {
    var l := LocalOf(w, t);
    var m := if l.pc.Leaving? then Remove(t) else Loop(t, NextEvent(l));
    StepKeepsInv(w, m);
    var w1 := Apply(w, m);
    if l.pc.Leaving? {
      ms := [m];
      assert ms[1..] == [] && Run(w1, []) == w1;
    } else {
      EndingLoop(l, m.e);
      LoopKeepsOthers(w, t, m.e);
      var rest := FinishOne(w1, t);
      ms := [m] + rest;
      assert ms[1..] == rest;
    }
  }

  lemma {:induction false} DrainExists(w: World) returns (ms: seq<Move>)
    requires Inv(w)
    ensures Drains(w, ms)
    decreases |w.tasks.Keys|
  {
    if t :| Doomed(w, t) {
      var first := FinishOne(w, t);
      RunKeepsInv(w, first);
      var w1 := Run(w, first);
      assert w1.tasks.Keys == w.tasks.Keys - {t};
      var rest := DrainExists(w1);
      RunInTwoParts(w, first, rest);
      ms := first + rest;
    } else {
      ms := [];
    }
  }

  lemma RunOneMore(w: World, ms: seq<Move>, m: Move)
    requires EnabledRun(w, ms) && Enabled(Run(w, ms), m)
    ensures EnabledRun(w, ms + [m]) && Run(w, ms + [m]) == Apply(Run(w, ms), m)
  {
    assert [m][1..] == [] && EnabledRun(Run(w, ms), [m]);
    assert Run(Run(w, ms), [m]) == Run(Apply(Run(w, ms), m), []);
    RunInTwoParts(w, ms, [m]);
  }

  lemma {:induction false} CallsAreEnabled(w: World, ms: seq<Move>)
    requires forall m :: m in ms ==> m.Start? || m.Stop?
    ensures EnabledRun(w, ms)
    decreases |ms|
  {
    if ms != [] { CallsAreEnabled(Apply(w, ms[0]), ms[1..]); }
  }

  lemma OneCall(m: Move)
    ensures Started([m]) == if m.Start? then {m.name} else {}
    ensures Stopped([m]) == if m.Stop? then {m.name} else {}
  {
    assert m in [m];
  }

  /** The calls for some sets of workspaces, in some order. */
  lemma {:induction false} CallsFor(starts: set<string>, stops: set<string>) returns (ms: seq<Move>)
    ensures Started(ms) == starts && Stopped(ms) == stops && forall m :: m in ms ==> m.Start? || m.Stop?
    decreases |starts| + |stops|
  {
    if n :| n in starts {
      var rest := CallsFor(starts - {n}, stops);
      ms := WithCall(Start(n), rest);
      assert starts - {n} + {n} == starts;
    } else if n :| n in stops {
      var rest := CallsFor(starts, stops - {n});
      ms := WithCall(Stop(n), rest);
      assert stops - {n} + {n} == stops;
    } else {
      ms := [];
      assert Started(ms) == {} == starts && Stopped(ms) == {} == stops;
    }
  }

  lemma WithCall(m: Move, rest: seq<Move>) returns (ms: seq<Move>)
    ensures Started(ms) == Started(rest) + if m.Start? then {m.name} else {}
    ensures Stopped(ms) == Stopped(rest) + if m.Stop? then {m.name} else {}
    ensures forall k :: k in ms <==> k == m || k in rest
  {
    ms := [m] + rest;
    OneCall(m);
    CallsOfConcat([m], rest);
  }

  /** From every state a pass can be made and drained. */
  lemma PassExists(w: World, eligible: set<string>, keep: set<string>) returns (ms: seq<Move>)
    requires Inv(w)
    ensures IsPass(w, ms, eligible, keep) && Drained(Run(w, ms))
  {
    var calls := CallsFor(eligible - w.procs.Keys, w.procs.Keys - keep);
    CallsAreEnabled(w, calls);
    RunKeepsInv(w, calls);
    var rest := DrainExists(Run(w, calls));
    RunInTwoParts(w, calls, rest);
    CallsOfConcat(calls, rest);
    TaskMovesCallNothing(rest);
    ms := calls + rest;
  }

  lemma TaskMovesCallNothing(ms: seq<Move>)
    requires forall m :: m in ms ==> m.Loop? || m.Remove?
    ensures Started(ms) == Stopped(ms) == {}
  {}

  // ---- a workspace taken down and up again before its task has ended ----

  const SIGNALLED := World(map["a" := 0], {0}, map[0 := Task("a", Spawning)], multiset{}, 1)
  const FAILED := SIGNALLED.(tasks := map[0 := Task("a", SpawnFailed(Fresh))])
  const LEFT := FAILED.(tasks := map[0 := Task("a", Leaving)], permits := {})

  lemma SignalledFails()
    ensures Enabled(SIGNALLED, Loop(0, SpawnErr)) && Apply(SIGNALLED, Loop(0, SpawnErr)) == FAILED
  {}

  lemma FailedLeaves()
    ensures Enabled(FAILED, Loop(0, FirstPoll)) && Apply(FAILED, Loop(0, FirstPoll)) == LEFT
  {}

  lemma LeftIsRemoved()
    ensures Enabled(LEFT, Remove(0)) && Apply(LEFT, Remove(0)).procs == map[] && Apply(LEFT, Remove(0)).tasks == map[]
  {}

  const LOST: seq<Move> := [Loop(0, SpawnErr), Loop(0, FirstPoll), Remove(0)]

  lemma LostRun()
    ensures EnabledRun(SIGNALLED, LOST) && Run(SIGNALLED, LOST) == Apply(LEFT, Remove(0))
  {
    SignalledFails();
    FailedLeaves();
    LeftIsRemoved();
    var end := Apply(LEFT, Remove(0));
    assert LOST[1..] == [Loop(0, FirstPoll), Remove(0)] && LOST[1..][1..] == [Remove(0)] && [Remove(0)][1..] == [];
    assert EnabledRun(end, []) && Run(end, []) == end;
    assert EnabledRun(LEFT, [Remove(0)]) && Run(LEFT, [Remove(0)]) == end;
    assert EnabledRun(FAILED, LOST[1..]) && Run(FAILED, LOST[1..]) == end;
  }

  /**
    The pass sees the old task's entry, starts nothing, and the entry then goes away: the eligible workspace
    has none.
  */
  lemma EligibleLostToPendingStop()
    ensures ApplyStop(ApplyStart(EMPTY, "a"), "a") == SIGNALLED && Inv(SIGNALLED)
    ensures IsPass(SIGNALLED, LOST, {"a"}, {"a"})
    ensures Drained(Run(SIGNALLED, LOST)) && Run(SIGNALLED, LOST).procs == map[]
  {
    LostRun();
    LeftIsRemoved();
  }
}
