/**
  One agent's life, from `spawn` to the removal of its map entry, as the task that supervises it steps
  through it: start the process, wait for health, send the prompt, then wait for an exit or a stop. The
  events it broadcasts are its trace. Stop requests, and the process exiting, can come between any two steps.
*/
module AgentLifecycle {
  import opened Wrappers

  const MAX_ATTEMPTS: nat := 30
  const STOP_GRACE_MS: nat := 5000

  datatype Event = Starting | Ready | Busy | Error | Stopping | Stopped

  datatype Timer = Fresh | Pending | Elapsed

  datatype Pc =
    | Spawning
    | HealthWait(timer: Timer)  // waiting: stop signal or the pause before a probe
    | Probing
    | FetchingCard
    | Prompting
    | Serving                   // waiting: process exit or stop signal
    | Cancelling                // telling the process's tasks
    | Grace                     // graceful stop after a stop request
    | FailGrace                 // graceful stop after a failed health check
    | Leaving                   // last event sent, map entry not yet removed
    | Gone

  datatype Agent = Agent(
    pc: Pc,
    hasPrompt: bool,
    permit: bool,
    exited: bool,
    attempts: nat,
    probes: nat,
    graceOverride: Option<nat>,
    graceUsed: Option<nat>,
    trace: seq<Event>)

  datatype Step =
    | SpawnOk | SpawnErr
    | FirstPoll | Tick | TakeTimer | TakeStop
    | ProbeOk | ProbeErr
    | CardFetched
    | PromptOk | PromptErr
    | TakeExit
    | TasksCancelled | GraceEnds
    | Remove
    | ProcessExits
    | StopSent(grace: Option<nat>)

  function Spawned(hasPrompt: bool): Agent {
    Agent(Spawning, hasPrompt, false, false, 0, 0, None, None, [Starting])
  }

  predicate InMap(a: Agent) { !a.pc.Gone? }

  predicate Enabled(a: Agent, m: Step) {
    match m
    case SpawnOk => a.pc.Spawning?
    case SpawnErr => a.pc.Spawning?
    case FirstPoll => a.pc == HealthWait(Fresh)
    case Tick => a.pc == HealthWait(Pending)
    case TakeTimer => a.pc == HealthWait(Elapsed)
    case TakeStop => a.permit && (a.pc == HealthWait(Pending) || a.pc == HealthWait(Elapsed) || a.pc.Serving?)
    case ProbeOk => a.pc.Probing?
    case ProbeErr => a.pc.Probing?
    case CardFetched => a.pc.FetchingCard?
    case PromptOk => a.pc.Prompting?
    case PromptErr => a.pc.Prompting?
    case TakeExit => a.pc.Serving? && a.exited
    case TasksCancelled => a.pc.Cancelling?
    case GraceEnds => a.pc.Grace? || a.pc.FailGrace?
    case Remove => a.pc.Leaving?
    case ProcessExits => !a.exited
    case StopSent(_) => true
  }

  function Emit(a: Agent, e: Event, pc: Pc): Agent {
    a.(pc := pc, trace := a.trace + [e])
  }

  function Apply(a: Agent, m: Step): Agent
    requires Enabled(a, m)
  {
    match m
    case SpawnOk => a.(pc := HealthWait(Fresh))
    case SpawnErr => Emit(a, Error, Leaving)
    case FirstPoll =>
      if a.permit then Emit(a, Error, FailGrace).(permit := false) else a.(pc := HealthWait(Pending))
    case Tick => a.(pc := HealthWait(Elapsed))
    case TakeTimer => a.(pc := Probing)
    case TakeStop =>
      (if a.pc.Serving? then Emit(a, Stopping, Cancelling) else Emit(a, Error, FailGrace)).(permit := false)
    case ProbeOk => a.(pc := FetchingCard, probes := a.probes + 1)
    case ProbeErr =>
      var a1 := a.(probes := a.probes + 1, attempts := a.attempts + 1);
      if a1.attempts >= MAX_ATTEMPTS then Emit(a1, Error, FailGrace) else a1.(pc := HealthWait(Fresh))
    case CardFetched => Emit(a, Ready, if a.hasPrompt then Prompting else Serving)
    case PromptOk => Emit(a, Busy, Serving)
    case PromptErr => a.(pc := Serving)
    case TakeExit => Emit(a, Error, Leaving)
    case TasksCancelled =>
      a.(pc := Grace, graceOverride := None,
         graceUsed := Some(if a.graceOverride.Some? then a.graceOverride.value else STOP_GRACE_MS))
    case GraceEnds => if a.pc.Grace? then Emit(a, Stopped, Leaving) else a.(pc := Leaving)
    case Remove => a.(pc := Gone)
    case ProcessExits => a.(exited := true)
    case StopSent(grace) =>
      if !InMap(a) then a
      else a.(permit := true, graceOverride := if grace.Some? then grace else a.graceOverride)
  }

  predicate EnabledRun(a: Agent, ms: seq<Step>)
    decreases |ms|
  {
    ms == [] || (Enabled(a, ms[0]) && EnabledRun(Apply(a, ms[0]), ms[1..]))
  }

  function Run(a: Agent, ms: seq<Step>): Agent
    requires EnabledRun(a, ms)
    decreases |ms|
  {
    if ms == [] then a else Run(Apply(a, ms[0]), ms[1..])
  }

  // ---- the trace ----

  predicate ReadySoFar(trace: seq<Event>) {
    trace == [Starting, Ready] || trace == [Starting, Ready, Busy]
  }

  predicate StoppingSoFar(trace: seq<Event>) {
    trace == [Starting, Ready, Stopping] || trace == [Starting, Ready, Busy, Stopping]
  }

  /** Starting, then Error; or Ready, perhaps Busy, and then either Error or Stopping and Stopped. */
  predicate CompleteTrace(trace: seq<Event>) {
    || trace == [Starting, Error]
    || trace == [Starting, Ready, Error]
    || trace == [Starting, Ready, Busy, Error]
    || trace == [Starting, Ready, Stopping, Stopped]
    || trace == [Starting, Ready, Busy, Stopping, Stopped]
  }

  predicate Terminal(e: Event) { e.Error? || e.Stopped? }

  predicate TraceOk(a: Agent) {
    match a.pc
    case Spawning => a.trace == [Starting]
    case HealthWait(_) => a.trace == [Starting]
    case Probing => a.trace == [Starting]
    case FetchingCard => a.trace == [Starting]
    case Prompting => a.trace == [Starting, Ready]
    case Serving => ReadySoFar(a.trace)
    case Cancelling => StoppingSoFar(a.trace)
    case Grace => StoppingSoFar(a.trace)
    case FailGrace => a.trace == [Starting, Error]
    case Leaving => CompleteTrace(a.trace)
    case Gone => CompleteTrace(a.trace)
  }

  /** A probe is only made with fewer than thirty failures behind it. */
  predicate ProbesOk(a: Agent) {
    match a.pc
    case Spawning => a.probes == a.attempts == 0
    case HealthWait(_) => a.probes == a.attempts < MAX_ATTEMPTS
    case Probing => a.probes == a.attempts < MAX_ATTEMPTS
    case _ => a.probes <= MAX_ATTEMPTS
  }

  lemma StepKeepsTrace(a: Agent, m: Step)
    requires Enabled(a, m) && TraceOk(a)
    ensures TraceOk(Apply(a, m))
  {
    TracesGrow(a.trace);
  }

  lemma TracesGrow(trace: seq<Event>)
    ensures trace == [Starting] ==> trace + [Error] == [Starting, Error] && trace + [Ready] == [Starting, Ready]
    ensures trace == [Starting, Ready] ==> trace + [Busy] == [Starting, Ready, Busy]
    ensures ReadySoFar(trace) ==> CompleteTrace(trace + [Error]) && StoppingSoFar(trace + [Stopping])
    ensures StoppingSoFar(trace) ==> CompleteTrace(trace + [Stopped])
  {}

  lemma StepKeepsProbes(a: Agent, m: Step)
    requires Enabled(a, m) && ProbesOk(a)
    ensures ProbesOk(Apply(a, m))
  {}

  lemma {:induction false} RunKeepsOk(a: Agent, ms: seq<Step>)
    requires EnabledRun(a, ms) && TraceOk(a) && ProbesOk(a)
    ensures TraceOk(Run(a, ms)) && ProbesOk(Run(a, ms))
    decreases |ms|
  {
    if ms != [] {
      StepKeepsTrace(a, ms[0]);
      StepKeepsProbes(a, ms[0]);
      RunKeepsOk(Apply(a, ms[0]), ms[1..]);
    }
  }

  lemma {:induction false} ProbesAreCounted(a: Agent, ms: seq<Step>)
    requires EnabledRun(a, ms)
    ensures Run(a, ms).probes == a.probes + Probes(ms)
    decreases |ms|
  {
    if ms != [] { ProbesAreCounted(Apply(a, ms[0]), ms[1..]); }
  }

  lemma OneTerminalEvent(trace: seq<Event>)
    requires CompleteTrace(trace)
    ensures Terminal(trace[|trace| - 1]) && forall i :: 0 <= i < |trace| - 1 ==> !Terminal(trace[i])
  {}

  /**
    Over every life: at most thirty probes, and when the entry leaves the map the trace is complete,
    ending in its only terminal event.
  */
  lemma LifeIsWellFormed(hasPrompt: bool, ms: seq<Step>)
    requires EnabledRun(Spawned(hasPrompt), ms)
    ensures var a := Run(Spawned(hasPrompt), ms);
            && Probes(ms) <= 30
            && (!InMap(a) ==>
                && CompleteTrace(a.trace)
                && Terminal(a.trace[|a.trace| - 1])
                && forall i :: 0 <= i < |a.trace| - 1 ==> !Terminal(a.trace[i]))
  {
    RunKeepsOk(Spawned(hasPrompt), ms);
    ProbesAreCounted(Spawned(hasPrompt), ms);
    var a := Run(Spawned(hasPrompt), ms);
    if !InMap(a) { OneTerminalEvent(a.trace); }
  }

  // ---- what decides the events of a life ----

  /** How often a step occurs in a run. */
  function Count(ms: seq<Step>, m: Step): nat {
    if ms == [] then 0 else (if ms[0] == m then 1 else 0) + Count(ms[1..], m)
  }

  /** Past the place where the prompt is sent: Ready is out, and the task is not at the prompt. */
  predicate PastPrompt(a: Agent) { Ready in a.trace && !a.pc.Prompting? }

  /** What is known of a life in which prompts were sent `oks` times and failed `errs` times. */
  predicate PromptsOk(a: Agent, hasPrompt: bool, oks: nat, errs: nat) {
    && a.hasPrompt == hasPrompt
    && oks + errs == (if hasPrompt && PastPrompt(a) then 1 else 0)
    && (a.pc.Prompting? ==> hasPrompt && Ready in a.trace)
    && (Busy in a.trace <==> oks == 1)
  }

  /** A step adds at most the one event it emits. */
  lemma EventsAfter(a: Agent, m: Step)
    requires Enabled(a, m)
    ensures var a' := Apply(a, m);
            forall e :: e in a'.trace <==> e in a.trace || (a'.trace != a.trace && e == a'.trace[|a'.trace| - 1])
  {
    AtMostOneEvent(a, m);
  }

  lemma StepKeepsPrompts(a: Agent, m: Step, hasPrompt: bool, oks: nat, errs: nat)
    requires Enabled(a, m) && TraceOk(a) && PromptsOk(a, hasPrompt, oks, errs)
    ensures PromptsOk(Apply(a, m), hasPrompt, oks + (if m == PromptOk then 1 else 0),
                      errs + (if m == PromptErr then 1 else 0))
  {
    EventsAfter(a, m);
  }

  lemma {:induction false} RunKeepsPrompts(a: Agent, ms: seq<Step>, hasPrompt: bool, oks: nat, errs: nat)
    requires EnabledRun(a, ms) && TraceOk(a) && PromptsOk(a, hasPrompt, oks, errs)
    ensures PromptsOk(Run(a, ms), hasPrompt, oks + Count(ms, PromptOk), errs + Count(ms, PromptErr))
    decreases |ms|
  {
    if ms != [] {
      StepKeepsTrace(a, ms[0]);
      StepKeepsPrompts(a, ms[0], hasPrompt, oks, errs);
      RunKeepsPrompts(Apply(a, ms[0]), ms[1..], hasPrompt,
                      oks + (if ms[0] == PromptOk then 1 else 0), errs + (if ms[0] == PromptErr then 1 else 0));
    }
  }

  /**
    Over every life: a prompt is sent at most once, only to an agent that was spawned with one, and to each of
    those that got past its start. Busy is out exactly when sending worked.
  */
  lemma PromptIsSentOnce(hasPrompt: bool, ms: seq<Step>)
    requires EnabledRun(Spawned(hasPrompt), ms)
    ensures var a, sent := Run(Spawned(hasPrompt), ms), Count(ms, PromptOk) + Count(ms, PromptErr);
            && sent <= 1 && (sent == 1 ==> hasPrompt)
            && (hasPrompt && Ready in a.trace && !a.pc.Prompting? ==> sent == 1)
            && (a.pc.Prompting? ==> hasPrompt && sent == 0)
            && (Busy in a.trace <==> Count(ms, PromptOk) == 1)
  {
    RunKeepsPrompts(Spawned(hasPrompt), ms, hasPrompt, 0, 0);
  }

  /** What is known of a life in which `exits` process exits were taken and `stops` stop requests were made. */
  predicate EndOk(a: Agent, exits: nat, stops: nat) {
    && (exits > 0 <==> Ready in a.trace && Error in a.trace)
    && (Stopping in a.trace || a.permit ==> stops > 0)
    && (exits > 0 ==> a.exited)
  }

  /** The process has exited exactly if it did so in the run. */
  lemma {:induction false} ExitIsKnown(a: Agent, ms: seq<Step>)
    requires EnabledRun(a, ms)
    ensures Run(a, ms).exited <==> a.exited || Count(ms, ProcessExits) > 0
    decreases |ms|
  {
    if ms != [] { ExitIsKnown(Apply(a, ms[0]), ms[1..]); }
  }

  /** What comes from outside may come at any time, an exit once, and what is tried may work or fail. */
  lemma OutcomesAreOpen(a: Agent, grace: Option<nat>)
    ensures Enabled(a, StopSent(grace)) && (Enabled(a, ProcessExits) <==> !a.exited)
    ensures a.pc.Spawning? ==> Enabled(a, SpawnOk) && Enabled(a, SpawnErr)
    ensures a.pc.Probing? ==> Enabled(a, ProbeOk) && Enabled(a, ProbeErr)
    ensures a.pc.Prompting? ==> Enabled(a, PromptOk) && Enabled(a, PromptErr)
    ensures a.pc == HealthWait(Elapsed) && a.permit ==> Enabled(a, TakeTimer) && Enabled(a, TakeStop)
    ensures a.pc.Serving? && a.permit && a.exited ==> Enabled(a, TakeExit) && Enabled(a, TakeStop)
  {}

  /**
    A task can always step until it is gone, except that a serving one waits for an exit or a stop, and takes
    either.
  */
  lemma TaskCanStep(a: Agent)
    ensures (exists m :: !Outside(m) && Enabled(a, m)) <==> InMap(a) && (a.pc.Serving? ==> a.exited || a.permit)
    ensures a.pc.Serving? ==> (Enabled(a, TakeExit) <==> a.exited) && (Enabled(a, TakeStop) <==> a.permit)
    ensures Enabled(a, TakeStop) ==> !Apply(a, TakeStop).permit
  {
    var m := match a.pc
      case Spawning => SpawnOk
      case HealthWait(timer) => if timer.Fresh? then FirstPoll else if timer.Pending? then Tick else TakeTimer
      case Probing => ProbeOk
      case FetchingCard => CardFetched
      case Prompting => PromptOk
      case Serving => if a.exited then TakeExit else TakeStop
      case Cancelling => TasksCancelled
      case Grace => GraceEnds
      case FailGrace => GraceEnds
      case Leaving => Remove
      case Gone => Remove;
    if InMap(a) && (a.pc.Serving? ==> a.exited || a.permit) { assert !Outside(m) && Enabled(a, m); }
  }

  lemma StepKeepsEnd(a: Agent, m: Step, exits: nat, stops: nat)
    requires Enabled(a, m) && TraceOk(a) && EndOk(a, exits, stops)
    ensures EndOk(Apply(a, m), exits + (if m == TakeExit then 1 else 0), stops + (if m.StopSent? then 1 else 0))
  {
    EventsAfter(a, m);
  }

  function StopCount(ms: seq<Step>): nat {
    if ms == [] then 0 else (if ms[0].StopSent? then 1 else 0) + StopCount(ms[1..])
  }

  lemma {:induction false} RunKeepsEnd(a: Agent, ms: seq<Step>, exits: nat, stops: nat)
    requires EnabledRun(a, ms) && TraceOk(a) && EndOk(a, exits, stops)
    ensures EndOk(Run(a, ms), exits + Count(ms, TakeExit), stops + StopCount(ms))
    decreases |ms|
  {
    if ms != [] {
      StepKeepsTrace(a, ms[0]);
      StepKeepsEnd(a, ms[0], exits, stops);
      RunKeepsEnd(Apply(a, ms[0]), ms[1..], exits + (if ms[0] == TakeExit then 1 else 0),
                  stops + (if ms[0].StopSent? then 1 else 0));
    }
  }

  /**
    Over every life that became ready: it ends with Error exactly when the task took its process's exit, which
    then has exited, and with Stopped otherwise, which takes somebody's request.
  */
  lemma EndTellsCause(hasPrompt: bool, ms: seq<Step>)
    requires EnabledRun(Spawned(hasPrompt), ms) && Ready in Run(Spawned(hasPrompt), ms).trace
    requires !InMap(Run(Spawned(hasPrompt), ms))
    ensures var a := Run(Spawned(hasPrompt), ms);
            && a.trace[|a.trace| - 1] == (if Count(ms, TakeExit) > 0 then Error else Stopped)
            && (Count(ms, TakeExit) > 0 ==> Count(ms, ProcessExits) > 0)
            && (Count(ms, TakeExit) == 0 ==> StopCount(ms) > 0)
  {
    RunKeepsEnd(Spawned(hasPrompt), ms, 0, 0);
    RunKeepsOk(Spawned(hasPrompt), ms);
    ExitIsKnown(Spawned(hasPrompt), ms);
  }

  // ---- a stop is never lost ----

  predicate Ending(a: Agent) {
    a.permit || a.pc.Cancelling? || a.pc.Grace? || a.pc.FailGrace? || a.pc.Leaving? || a.pc.Gone?
  }

  predicate IsProbe(m: Step) { m.ProbeOk? || m.ProbeErr? }

  predicate Outside(m: Step) { m.ProcessExits? || m.StopSent? }

  function ProbesLeft(pc: Pc): (n: nat)
    ensures n <= 1
  {
    if pc == HealthWait(Pending) || pc == HealthWait(Elapsed) || pc.Probing? then 1 else 0
  }

  function StepsLeft(pc: Pc): (n: nat)
    ensures n <= 9
  {
    match pc
    case Spawning => 4
    case HealthWait(timer) => (match timer case Fresh => 3 case Pending => 9 case Elapsed => 8)
    case Probing => 7
    case FetchingCard => 6
    case Prompting => 5
    case Serving => 4
    case Cancelling => 3
    case Grace => 2
    case FailGrace => 2
    case Leaving => 1
    case Gone => 0
  }

  lemma EndingStep(a: Agent, m: Step)
    requires Ending(a) && Enabled(a, m)
    ensures Ending(Apply(a, m))
    ensures ProbesLeft(Apply(a, m).pc) + (if IsProbe(m) then 1 else 0) <= ProbesLeft(a.pc) <= 1
    ensures StepsLeft(Apply(a, m).pc) + (if Outside(m) then 0 else 1) <= StepsLeft(a.pc) <= 9
  {}

  function Probes(ms: seq<Step>): nat {
    if ms == [] then 0 else (if IsProbe(ms[0]) then 1 else 0) + Probes(ms[1..])
  }

  function OwnSteps(ms: seq<Step>): nat {
    if ms == [] then 0 else (if Outside(ms[0]) then 0 else 1) + OwnSteps(ms[1..])
  }

  lemma {:induction false} EndingRun(a: Agent, ms: seq<Step>)
    requires Ending(a) && EnabledRun(a, ms)
    ensures Ending(Run(a, ms))
    ensures Probes(ms) <= ProbesLeft(a.pc) <= 1
    ensures OwnSteps(ms) + StepsLeft(Run(a, ms).pc) <= StepsLeft(a.pc) <= 9
    decreases |ms|
  {
    if ms != [] {
      EndingStep(a, ms[0]);
      EndingRun(Apply(a, ms[0]), ms[1..]);
    }
  }

  /** What an ending agent's task can always do next. */
  function NextStep(a: Agent): (m: Step)
    requires Ending(a) && InMap(a)
    ensures Enabled(a, m) && !Outside(m)
  {
    match a.pc
    case Spawning => SpawnOk
    case HealthWait(timer) => if timer.Fresh? then FirstPoll else TakeStop
    case Probing => ProbeOk
    case FetchingCard => CardFetched
    case Prompting => PromptOk
    case Serving => TakeStop
    case Cancelling => TasksCancelled
    case Grace => GraceEnds
    case FailGrace => GraceEnds
    case Leaving => Remove
    case Gone => assert false; Remove
  }

  /**
    A stop sent while the entry is in the map: at most one more probe, at most nine more steps, and the
    task can step as long as it is not gone.
  */
  lemma StopIsNeverLost(a: Agent, grace: Option<nat>, ms: seq<Step>)
    requires InMap(a) && EnabledRun(Apply(a, StopSent(grace)), ms)
    ensures var a' := Run(Apply(a, StopSent(grace)), ms);
            && Probes(ms) <= 1 && OwnSteps(ms) <= 9
            && (!InMap(a') <==> forall m :: !Outside(m) ==> !Enabled(a', m))
  {
    EndingRun(Apply(a, StopSent(grace)), ms);
    var a' := Run(Apply(a, StopSent(grace)), ms);
    if InMap(a') { assert Enabled(a', NextStep(a')); }
  }

  // ---- a life is short ----

  /** Steps of its own a life can still take, stopped or not: four for each probe left, and a few more. */
  function Rest(a: Agent): int {
    var probesLeft := MAX_ATTEMPTS - a.attempts;
    match a.pc
    case Spawning => 127
    case HealthWait(timer) => 4 * probesLeft + (match timer case Fresh => 6 case Pending => 5 case Elapsed => 4)
    case Probing => 4 * probesLeft + 3
    case FetchingCard => 6
    case Prompting => 5
    case Serving => 4
    case Cancelling => 3
    case Grace => 2
    case FailGrace => 2
    case Leaving => 1
    case Gone => 0
  }

  lemma StepLowersRest(a: Agent, m: Step)
    requires Enabled(a, m) && ProbesOk(a)
    ensures Rest(Apply(a, m)) + (if Outside(m) then 0 else 1) <= Rest(a)
    ensures Rest(Apply(a, m)) >= 0
  {}

  lemma {:induction false} RunLowersRest(a: Agent, ms: seq<Step>)
    requires EnabledRun(a, ms) && ProbesOk(a) && Rest(a) >= 0
    ensures 0 <= Rest(Run(a, ms)) <= Rest(a) - OwnSteps(ms)
    decreases |ms|
  {
    if ms != [] {
      StepKeepsProbes(a, ms[0]);
      StepLowersRest(a, ms[0]);
      RunLowersRest(Apply(a, ms[0]), ms[1..]);
    }
  }

  /**
    No life takes more than 127 steps of its own: with `TaskCanStep`, it ends, or serves until its process
    exits or it is stopped.
  */
  lemma LifeIsShort(hasPrompt: bool, ms: seq<Step>)
    requires EnabledRun(Spawned(hasPrompt), ms)
    ensures OwnSteps(ms) <= 127
  {
    RunLowersRest(Spawned(hasPrompt), ms);
  }

  // ---- the grace period ----

  /** The last grace period asked for. */
  function LastGrace(ms: seq<Step>): Option<nat>
    decreases |ms|
  {
    if ms == [] then None else
    var m := ms[|ms| - 1];
    if m.StopSent? && m.grace.Some? then m.grace else LastGrace(ms[..|ms| - 1])
  }

  predicate BeforeGrace(pc: Pc) { !pc.Grace? && !pc.Leaving? && !pc.Gone? && !pc.FailGrace? }

  lemma {:induction false} OverrideIsLastGrace(a: Agent, ms: seq<Step>)
    requires EnabledRun(a, ms) && BeforeGrace(Run(a, ms).pc)
    ensures BeforeGrace(a.pc)
    ensures Run(a, ms).graceOverride == if LastGrace(ms).Some? then LastGrace(ms) else a.graceOverride
    decreases |ms|
  {
    if ms != [] {
      OverrideIsLastGrace(Apply(a, ms[0]), ms[1..]);
      LastGraceOfTail(ms);
    }
  }

  lemma {:induction false} LastGraceOfTail(ms: seq<Step>)
    requires ms != []
    ensures LastGrace(ms) == if LastGrace(ms[1..]).Some? then LastGrace(ms[1..])
                             else if ms[0].StopSent? then ms[0].grace else None
    decreases |ms|
  {
    var n := |ms| - 1;
    if n > 0 {
      LastGraceOfTail(ms[..n]);
      assert ms[1..][..n - 1] == ms[..n][1..];
    } else {
      assert ms[..n] == [];
    }
  }

  /** The process is given the grace period of the latest stop that named one, and five seconds if none did. */
  lemma GraceIsTheLastAskedFor(hasPrompt: bool, ms: seq<Step>)
    requires EnabledRun(Spawned(hasPrompt), ms) && Run(Spawned(hasPrompt), ms).pc.Cancelling?
    ensures Apply(Run(Spawned(hasPrompt), ms), TasksCancelled).graceUsed ==
            Some(if LastGrace(ms).Some? then LastGrace(ms).value else 5000)
  {
    OverrideIsLastGrace(Spawned(hasPrompt), ms);
  }

  // ---- all agents of a supervisor, and the channel their events share ----

  /** One spawned agent: its id, which may be another's too, and its life. */
  datatype Life = Life(id: string, agent: Agent)

  /** Lives are numbered to tell equal ids apart, also on the channel, which itself carries only ids. */
  datatype Sup = Sup(agents: map<string, nat>, lives: map<nat, Life>, next: nat, events: seq<(nat, Event)>)

  const NOBODY := Sup(map[], map[], 0, [])

  datatype Call =
    | Spawn(id: string, hasPrompt: bool)
    | StopOne(id: string, grace: Option<nat>)
    | StopAll
    | Advance(t: nat, step: Step)

  predicate CanDo(s: Sup, c: Call) {
    c.Advance? ==> c.t in s.lives && Enabled(s.lives[c.t].agent, c.step) && !c.step.StopSent?
  }

  function Signalled(l: Life, grace: Option<nat>): Life { l.(agent := Apply(l.agent, StopSent(grace))) }

  /** The life is the one its id stands for in the map. */
  predicate Listed(s: Sup, t: nat) { t in s.lives && s.lives[t].id in s.agents && s.agents[s.lives[t].id] == t }

  function AfterSpawn(s: Sup, id: string, hasPrompt: bool): Sup {
    Sup(s.agents[id := s.next], s.lives[s.next := Life(id, Spawned(hasPrompt))], s.next + 1,
        s.events + [(s.next, Starting)])
  }

  function AfterStop(s: Sup, id: string, grace: Option<nat>): Sup {
    if id in s.agents && s.agents[id] in s.lives
    then s.(lives := s.lives[s.agents[id] := Signalled(s.lives[s.agents[id]], grace)])
    else s
  }

  /** The lives listed under some ids are signalled, and all that are listed. */
  function AfterStops(s: Sup, ids: set<string>): Sup {
    s.(lives := map t | t in s.lives ::
         if Listed(s, t) && s.lives[t].id in ids then Signalled(s.lives[t], None) else s.lives[t])
  }

  function AfterStopAll(s: Sup): Sup { AfterStops(s, s.agents.Keys) }

  function Sent(t: nat, a: Agent, a': Agent): seq<(nat, Event)> {
    if |a'.trace| > |a.trace| then [(t, a'.trace[|a'.trace| - 1])] else []
  }

  /** What a step emits is sent, and the last step removes whatever entry the id has. */
  function AfterStep(s: Sup, t: nat, m: Step): Sup
    requires t in s.lives && Enabled(s.lives[t].agent, m)
  {
    var id, a := s.lives[t].id, Apply(s.lives[t].agent, m);
    var sent := Sent(t, s.lives[t].agent, a);
    if InMap(a) then s.(lives := s.lives[t := Life(id, a)], events := s.events + sent)
    else s.(agents := s.agents - {id}, lives := s.lives - {t}, events := s.events + sent)
  }

  function Do(s: Sup, c: Call): Sup
    requires CanDo(s, c)
  {
    match c
    case Spawn(id, hasPrompt) => AfterSpawn(s, id, hasPrompt)
    case StopOne(id, grace) => AfterStop(s, id, grace)
    case StopAll => AfterStopAll(s)
    case Advance(t, step) => AfterStep(s, t, step)
  }

  predicate CanDoAll(s: Sup, cs: seq<Call>)
    decreases |cs|
  {
    cs == [] || (CanDo(s, cs[0]) && CanDoAll(Do(s, cs[0]), cs[1..]))
  }

  function DoAll(s: Sup, cs: seq<Call>): Sup
    requires CanDoAll(s, cs)
    decreases |cs|
  {
    if cs == [] then s else DoAll(Do(s, cs[0]), cs[1..])
  }

  /** The events of one life, in order. */
  function TraceOf(events: seq<(nat, Event)>, t: nat): seq<Event>
    decreases |events|
  {
    if events == [] then []
    else
      var n := |events| - 1;
      TraceOf(events[..n], t) + if events[n].0 == t then [events[n].1] else []
  }

  lemma TraceAfterSend(events: seq<(nat, Event)>, sent: (nat, Event), t: nat)
    ensures TraceOf(events + [sent], t) == TraceOf(events, t) + if sent.0 == t then [sent.1] else []
  {
    assert (events + [sent])[..|events|] == events;
  }

  /** A running life has sent a proper beginning of a trace, an ended one a whole trace, and no other anything. */
  ghost predicate LifeOk(s: Sup, t: nat) {
    if t in s.lives then
      t < s.next && InMap(s.lives[t].agent) && TraceOk(s.lives[t].agent)
      && TraceOf(s.events, t) == s.lives[t].agent.trace
    else if t < s.next then CompleteTrace(TraceOf(s.events, t))
    else TraceOf(s.events, t) == []
  }

  ghost predicate SupOk(s: Sup) {
    && (forall t :: LifeOk(s, t))
    && (forall id :: id in s.agents ==> s.agents[id] in s.lives && s.lives[s.agents[id]].id == id)
  }

  ghost predicate AllListed(s: Sup) { forall t :: t in s.lives ==> Listed(s, t) }

  lemma SpawnKeepsOk(s: Sup, id: string, hasPrompt: bool)
    requires SupOk(s)
    ensures SupOk(AfterSpawn(s, id, hasPrompt))
    ensures AllListed(s) ==> (AllListed(AfterSpawn(s, id, hasPrompt)) <==> id !in s.agents)
  {
    var s' := AfterSpawn(s, id, hasPrompt);
    forall t ensures LifeOk(s', t) {
      assert LifeOk(s, t);
      TraceAfterSend(s.events, (s.next, Starting), t);
    }
    assert s.next !in s.lives by { assert LifeOk(s, s.next); }
    if id in s.agents { assert !Listed(s', s.agents[id]); }
  }

  lemma StopKeepsOk(s: Sup, s': Sup)
    requires SupOk(s) && s'.agents == s.agents && s'.next == s.next && s'.events == s.events
    requires s'.lives.Keys == s.lives.Keys
    requires forall t :: t in s.lives ==>
               && s'.lives[t].id == s.lives[t].id && s'.lives[t].agent.pc == s.lives[t].agent.pc
               && s'.lives[t].agent.trace == s.lives[t].agent.trace
    ensures SupOk(s') && (AllListed(s) ==> AllListed(s'))
  {
    forall t ensures LifeOk(s', t) {
      assert LifeOk(s, t);
    }
    forall t | t in s.lives && Listed(s, t) ensures Listed(s', t) {}
  }

  lemma StepKeepsOk(s: Sup, t: nat, m: Step)
    requires SupOk(s) && t in s.lives && Enabled(s.lives[t].agent, m)
    ensures SupOk(AfterStep(s, t, m)) && (AllListed(s) ==> AllListed(AfterStep(s, t, m)))
  {
    var s', a := AfterStep(s, t, m), s.lives[t].agent;
    assert LifeOk(s, t);
    forall k ensures LifeOk(s', k) {
      assert LifeOk(s, k);
      if k == t {
        AdvanceKeepsTrace(a, m, s.events, t);
      } else {
        OthersUnchanged(s.events, Sent(t, a, Apply(a, m)), t, k);
      }
    }
    forall k | k in s'.lives && Listed(s, k) && Listed(s, t) ensures Listed(s', k) {}
  }

  lemma AdvanceKeepsTrace(a: Agent, m: Step, events: seq<(nat, Event)>, t: nat)
    requires Enabled(a, m) && TraceOk(a) && TraceOf(events, t) == a.trace
    ensures TraceOk(Apply(a, m)) && TraceOf(events + Sent(t, a, Apply(a, m)), t) == Apply(a, m).trace
  {
    var sent := Sent(t, a, Apply(a, m));
    StepKeepsTrace(a, m);
    AtMostOneEvent(a, m);
    if sent == [] { assert events + sent == events; } else { TraceAfterSend(events, sent[0], t); }
  }

  lemma OthersUnchanged(events: seq<(nat, Event)>, sent: seq<(nat, Event)>, t: nat, k: nat)
    requires k != t && (sent == [] || (|sent| == 1 && sent[0].0 == t))
    ensures TraceOf(events + sent, k) == TraceOf(events, k)
  {
    if sent == [] { assert events + sent == events; } else { TraceAfterSend(events, sent[0], k); }
  }

  lemma AtMostOneEvent(a: Agent, m: Step)
    requires Enabled(a, m)
    ensures var a' := Apply(a, m);
            a'.trace == a.trace || (|a'.trace| > 0 && a'.trace == a.trace + [a'.trace[|a'.trace| - 1]])
  {}

  lemma NoStops(s: Sup)
    ensures AfterStops(s, {}) == s
  {
    assert AfterStops(s, {}).lives == s.lives;
  }

  lemma StopsOneByOne(s: Sup, ids: set<string>, id: string)
    requires SupOk(s) && id in s.agents && id !in ids
    ensures AfterStop(AfterStops(s, ids), id, None) == AfterStops(s, ids + {id})
  {
    assert AfterStop(AfterStops(s, ids), id, None).lives == AfterStops(s, ids + {id}).lives;
  }

  /** A spawn on an id that is still in the map. */
  predicate TakesOver(s: Sup, c: Call) { c.Spawn? && c.id in s.agents }

  lemma StopAllKeepsOk(s: Sup)
    requires SupOk(s)
    ensures SupOk(AfterStopAll(s)) && (AllListed(s) ==> AllListed(AfterStopAll(s)))
  {
    forall t | t in s.lives ensures InMap(s.lives[t].agent) { assert LifeOk(s, t); }
    StopKeepsOk(s, AfterStopAll(s));
  }

  lemma CallKeepsOk(s: Sup, c: Call)
    requires SupOk(s) && CanDo(s, c)
    ensures SupOk(Do(s, c)) && (AllListed(s) ==> (AllListed(Do(s, c)) <==> !TakesOver(s, c)))
  {
    match c
    case Spawn(id, hasPrompt) => SpawnKeepsOk(s, id, hasPrompt);
    case Advance(t, step) => StepKeepsOk(s, t, step);
    case StopOne(_, grace) => StopKeepsOk(s, Do(s, c));
    case StopAll => StopAllKeepsOk(s);
  }

  /** No call of the run spawns on an id that is in the map at its turn. */
  predicate FreshIds(s: Sup, cs: seq<Call>)
    requires CanDoAll(s, cs)
    decreases |cs|
  {
    cs == [] || (!TakesOver(s, cs[0]) && FreshIds(Do(s, cs[0]), cs[1..]))
  }

  lemma {:induction false} RunKeepsSup(s: Sup, cs: seq<Call>)
    requires SupOk(s) && CanDoAll(s, cs)
    ensures SupOk(DoAll(s, cs))
    ensures AllListed(s) && FreshIds(s, cs) ==> AllListed(DoAll(s, cs))
    decreases |cs|
  {
    if cs != [] {
      CallKeepsOk(s, cs[0]);
      RunKeepsSup(Do(s, cs[0]), cs[1..]);
    }
  }

  lemma NobodyOk()
    ensures SupOk(NOBODY) && AllListed(NOBODY)
  {
    forall t ensures LifeOk(NOBODY, t) { assert TraceOf([], t) == []; }
  }

  /**
    Over every run of spawns, stops and steps: the channel holds a proper trace of every life, and, with fresh
    ids, a life without an entry has sent its whole trace, so entries go only after the one terminal event.
  */
  lemma EntriesOutliveTraces(cs: seq<Call>, t: nat)
    requires CanDoAll(NOBODY, cs) && t < DoAll(NOBODY, cs).next
    ensures var s := DoAll(NOBODY, cs);
            && LifeOk(s, t)
            && (FreshIds(NOBODY, cs) && (forall id :: id in s.agents ==> s.agents[id] != t) ==>
                  CompleteTrace(TraceOf(s.events, t)))
  {
    NobodyOk();
    RunKeepsSup(NOBODY, cs);
    var s := DoAll(NOBODY, cs);
    assert LifeOk(s, t);
    if FreshIds(NOBODY, cs) && t in s.lives { assert Listed(s, t); }
  }

  /** Steps a life makes of itself, and the probes among them. */
  predicate IsOwn(c: Call, t: nat) { c.Advance? && c.t == t && !Outside(c.step) }

  function OwnCalls(cs: seq<Call>, t: nat): nat {
    if cs == [] then 0 else (if IsOwn(cs[0], t) then 1 else 0) + OwnCalls(cs[1..], t)
  }

  function ProbeCalls(cs: seq<Call>, t: nat): nat {
    if cs == [] then 0 else (if IsOwn(cs[0], t) && IsProbe(cs[0].step) then 1 else 0) + ProbeCalls(cs[1..], t)
  }

  predicate OnItsWayOut(s: Sup, t: nat) { t < s.next && (t in s.lives ==> Ending(s.lives[t].agent)) }

  function StepBudget(s: Sup, t: nat): nat { if t in s.lives then StepsLeft(s.lives[t].agent.pc) else 0 }

  function ProbeBudget(s: Sup, t: nat): nat { if t in s.lives then ProbesLeft(s.lives[t].agent.pc) else 0 }

  lemma CallOnTheWayOut(s: Sup, c: Call, t: nat)
    requires CanDo(s, c) && OnItsWayOut(s, t)
    ensures OnItsWayOut(Do(s, c), t)
    ensures StepBudget(Do(s, c), t) + (if IsOwn(c, t) then 1 else 0) <= StepBudget(s, t) <= 9
    ensures ProbeBudget(Do(s, c), t) + (if IsOwn(c, t) && IsProbe(c.step) then 1 else 0) <= ProbeBudget(s, t) <= 1
  {
    if t in s.lives && c.Advance? && c.t == t { EndingStep(s.lives[t].agent, c.step); }
  }

  lemma {:induction false} RunOnTheWayOut(s: Sup, cs: seq<Call>, t: nat)
    requires CanDoAll(s, cs) && OnItsWayOut(s, t)
    ensures OnItsWayOut(DoAll(s, cs), t)
    ensures OwnCalls(cs, t) <= StepBudget(s, t) <= 9
    ensures ProbeCalls(cs, t) <= ProbeBudget(s, t) <= 1
    decreases |cs|
  {
    if cs != [] {
      CallOnTheWayOut(s, cs[0], t);
      RunOnTheWayOut(Do(s, cs[0]), cs[1..], t);
    }
  }

  /**
    With fresh ids, a stop naming the id of a running life reaches that life, whatever is called afterwards: at
    most nine more steps and one more probe of its own, and it can step until it is gone with its trace complete.
  */
  lemma StopReachesItsLife(cs: seq<Call>, t: nat, grace: Option<nat>, later: seq<Call>)
    requires CanDoAll(NOBODY, cs) && FreshIds(NOBODY, cs) && t in DoAll(NOBODY, cs).lives
    requires var s := DoAll(NOBODY, cs); CanDoAll(AfterStop(s, s.lives[t].id, grace), later)
    ensures var s := DoAll(NOBODY, cs);
            var s' := DoAll(AfterStop(s, s.lives[t].id, grace), later);
            && OwnCalls(later, t) <= 9 && ProbeCalls(later, t) <= 1
            && (if t in s'.lives then exists m :: !Outside(m) && CanDo(s', Advance(t, m))
                else CompleteTrace(TraceOf(s'.events, t)))
  {
    NobodyOk();
    RunKeepsSup(NOBODY, cs);
    var s := DoAll(NOBODY, cs);
    assert LifeOk(s, t) && Listed(s, t);
    var s1 := AfterStop(s, s.lives[t].id, grace);
    CallKeepsOk(s, StopOne(s.lives[t].id, grace));
    RunKeepsSup(s1, later);
    RunOnTheWayOut(s1, later, t);
    var s' := DoAll(s1, later);
    assert LifeOk(s', t);
    if t in s'.lives { assert CanDo(s', Advance(t, NextStep(s'.lives[t].agent))); }
  }

  /**
    A stop for an id reaches the life listed under it and no other; a stop of all reaches every listed life, and
    leaves the grace asked for before in force.
  */
  lemma StopsAreExact(s: Sup, id: string, grace: Option<nat>, t: nat)
    requires SupOk(s) && t in s.lives
    ensures var l, one, all := s.lives[t], AfterStop(s, id, grace).lives[t], AfterStopAll(s).lives[t];
            && one.id == all.id == l.id
            && (if id in s.agents && s.agents[id] == t
                then one.agent == l.agent.(permit := true,
                                           graceOverride := if grace.Some? then grace else l.agent.graceOverride)
                else one == l)
            && (if Listed(s, t) then all.agent == l.agent.(permit := true) else all == l)
    ensures AllListed(s) ==> OnItsWayOut(AfterStopAll(s), t)
  {
    assert LifeOk(s, t);
  }

  /**
    Why ids must be fresh: after a spawn on a taken id, a stop for that id does not reach the older life, and
    when the newer one ends the older one, still running, has no entry.
  */
  lemma TakenIdHidesLife(s: Sup, id: string, hasPrompt: bool, grace: Option<nat>)
    requires SupOk(s) && id in s.agents
    ensures var t, s1 := s.agents[id], AfterSpawn(s, id, hasPrompt);
            && AfterStop(s1, id, grace).lives[t] == s.lives[t]
            && CanDoAll(s1, [Advance(s.next, SpawnErr), Advance(s.next, Remove)])
            && var s2 := DoAll(s1, [Advance(s.next, SpawnErr), Advance(s.next, Remove)]);
               t in s2.lives && s2.lives[t] == s.lives[t] && id !in s2.agents
  {
    assert LifeOk(s, s.next);
    var s1 := AfterSpawn(s, id, hasPrompt);
    var mid := Do(s1, Advance(s.next, SpawnErr));
    var end := Do(mid, Advance(s.next, Remove));
    var cs := [Advance(s.next, SpawnErr), Advance(s.next, Remove)];
    assert cs[1..] == [cs[1]] && [cs[1]][1..] == [];
    assert CanDoAll(end, []) && DoAll(end, []) == end;
    assert CanDoAll(mid, [cs[1]]) && DoAll(mid, [cs[1]]) == end;
  }

  class AgentSupervisor {
    var agents: map<string, nat>
    var lives: map<nat, Life>
    var next: nat
    var events: seq<(nat, Event)>

    function View(): Sup
      reads this
    {
      Sup(agents, lives, next, events)
    }

    constructor ()
      ensures View() == NOBODY
    {
      agents, lives, next, events := map[], map[], 0, [];
    }

    /** A new life takes over its id's entry; the lives stay listed exactly when the id was not in the map. */
    method Spawn(id: string, hasPrompt: bool)
      requires SupOk(View())
      modifies this
      ensures View() == AfterSpawn(old(View()), id, hasPrompt) && SupOk(View())
      ensures old(AllListed(View())) ==> (AllListed(View()) <==> id !in old(agents))
    {
      SpawnKeepsOk(View(), id, hasPrompt);
      agents := agents[id := next];
      lives := lives[next := Life(id, Spawned(hasPrompt))];
      events := events + [(next, Starting)];
      next := next + 1;
    }

    method StopWithGrace(id: string, grace: Option<nat>)
      requires SupOk(View())
      modifies `lives
      ensures View() == AfterStop(old(View()), id, grace) && SupOk(View())
    {
      CallKeepsOk(View(), StopOne(id, grace));
      if id in agents {
        var t := agents[id];
        assert LifeOk(View(), t);
        var a := lives[t].agent;
        if grace.Some? {
          a := a.(graceOverride := grace);
        }
        lives := lives[t := Life(id, a.(permit := true))];
      }
    }

    method StopAll()
      requires SupOk(View())
      modifies `lives
      ensures View() == AfterStopAll(old(View())) && SupOk(View())
    {
      ghost var s, done: set<string> := View(), {};
      var left := agents.Keys;
      NoStops(s);
      while left != {}
        invariant SupOk(View()) && View() == AfterStops(s, done)
        invariant done !! left && done + left == s.agents.Keys
        decreases |left|
      {
        var id :| id in left;
        StopsOneByOne(s, done, id);
        StopWithGrace(id, None);
        left, done := left - {id}, done + {id};
      }
      assert done == s.agents.Keys;
    }

    /** One step of one life. */
    method Advance(t: nat, m: Step)
      requires SupOk(View()) && t in lives && Enabled(lives[t].agent, m) && !m.StopSent?
      modifies this
      ensures View() == AfterStep(old(View()), t, m) && SupOk(View())
      ensures old(AllListed(View())) ==> AllListed(View())
    {
      StepKeepsOk(View(), t, m);
      var id, a := lives[t].id, Apply(lives[t].agent, m);
      if |a.trace| > |lives[t].agent.trace| {
        events := events + [(t, a.trace[|a.trace| - 1])];
      }
      if InMap(a) {
        lives := lives[t := Life(id, a)];
      } else {
        agents := agents - {id};
        lives := lives - {t};
      }
    }

    /** Any run of calls goes as the theorems about runs have it. */
    method Replay(cs: seq<Call>)
      requires View() == NOBODY && CanDoAll(NOBODY, cs)
      modifies this
      ensures View() == DoAll(NOBODY, cs)
    {
      NobodyOk();
      for i := 0 to |cs|
        invariant SupOk(View()) && CanDoAll(View(), cs[i..]) && DoAll(View(), cs[i..]) == DoAll(NOBODY, cs)
      {
        assert cs[i..][0] == cs[i] && cs[i..][1..] == cs[i + 1..];
        match cs[i]
        case Spawn(id, hasPrompt) => Spawn(id, hasPrompt);
        case StopOne(id, grace) => StopWithGrace(id, grace);
        case StopAll => StopAll();
        case Advance(t, step) => Advance(t, step);
      }
    }
  }

  // ---- the health loop on its own ----

  /** What one turn of the health loop meets: a stop, or a probe and its result. */
  datatype Turn = Interrupted | Probe(ok: bool)

  datatype Outcome = Undecided | Unhealthy | Healthy

  /** The outcome of the loop with `attempts` failures behind it, and the failures it ends with. */
  function Verdict(turns: seq<Turn>, attempts: nat): (Outcome, nat)
    decreases |turns|
  {
    if turns == [] then (Undecided, attempts)
    else match turns[0]
      case Interrupted => (Unhealthy, attempts)
      case Probe(ok) =>
        if ok then (Healthy, attempts)
        else if attempts + 1 >= MAX_ATTEMPTS then (Unhealthy, attempts + 1)
        else Verdict(turns[1..], attempts + 1)
  }

  /** Healthy exactly when one of the first thirty turns is a good probe and all before it were bad ones. */
  method WaitForHealth(turns: seq<Turn>) returns (ok: bool, attempts: nat)
    requires |turns| >= 30
    ensures Verdict(turns, 0) == (if ok then Healthy else Unhealthy, attempts)
    ensures ok <==> exists i :: 0 <= i < 30 && turns[i] == Probe(true)
                                && forall j :: 0 <= j < i ==> turns[j] == Probe(false)
    ensures attempts <= 30 && forall j :: 0 <= j < attempts ==> turns[j] == Probe(false)
    ensures !ok && attempts < 30 ==> turns[attempts].Interrupted?
  {
    attempts := 0;
    while true
      invariant 0 <= attempts < MAX_ATTEMPTS
      invariant forall j :: 0 <= j < attempts ==> turns[j] == Probe(false)
      invariant Verdict(turns[attempts..], attempts) == Verdict(turns, 0)
      decreases MAX_ATTEMPTS - attempts
    {
      assert turns[attempts..][0] == turns[attempts] && turns[attempts..][1..] == turns[attempts + 1..];
      match turns[attempts]
      case Interrupted => return false, attempts;
      case Probe(good) =>
        if good {
          return true, attempts;
        }
      attempts := attempts + 1;
      if attempts >= MAX_ATTEMPTS {
        return false, attempts;
      }
    }
  }

  predicate InHealthLoop(pc: Pc) { pc.HealthWait? || pc.Probing? }

  /** The turn, if any, that one step of the waiting task is. */
  function TurnOf(a: Agent, m: Step): seq<Turn> {
    match m
    case ProbeOk => [Probe(true)]
    case ProbeErr => [Probe(false)]
    case TakeStop => [Interrupted]
    case FirstPoll => if a.permit then [Interrupted] else []
    case _ => []
  }

  /** The turns the health loop takes in a run: probes, and the stop it takes while waiting. */
  function TurnsOf(a: Agent, ms: seq<Step>): seq<Turn>
    requires EnabledRun(a, ms)
    decreases |ms|
  {
    if ms == [] || !InHealthLoop(a.pc) then []
    else TurnOf(a, ms[0]) + TurnsOf(Apply(a, ms[0]), ms[1..])
  }

  /** The agent got past its health check, or failed it. */
  predicate GotHealthy(a: Agent) { a.pc.FetchingCard? || Ready in a.trace }

  predicate GotUnhealthy(a: Agent) { (a.pc.FailGrace? || a.pc.Leaving? || a.pc.Gone?) && a.trace == [Starting, Error] }

  lemma StepAfterHealth(a: Agent, m: Step)
    requires Enabled(a, m) && !InHealthLoop(a.pc) && !a.pc.Spawning?
    ensures var a' := Apply(a, m);
            && !InHealthLoop(a'.pc) && !a'.pc.Spawning? && a'.attempts == a.attempts
            && (GotHealthy(a) ==> GotHealthy(a')) && (GotUnhealthy(a) ==> GotUnhealthy(a'))
  {
    if a.pc.FetchingCard? && m.CardFetched? { assert Apply(a, m).trace[|a.trace|] == Ready; }
  }

  lemma {:induction false} RunAfterHealth(a: Agent, ms: seq<Step>)
    requires EnabledRun(a, ms) && !InHealthLoop(a.pc) && !a.pc.Spawning?
    ensures var a' := Run(a, ms);
            && !InHealthLoop(a'.pc) && a'.attempts == a.attempts
            && (GotHealthy(a) ==> GotHealthy(a')) && (GotUnhealthy(a) ==> GotUnhealthy(a'))
    decreases |ms|
  {
    if ms != [] {
      StepAfterHealth(a, ms[0]);
      RunAfterHealth(Apply(a, ms[0]), ms[1..]);
    }
  }

  ghost predicate AgreesWith(a: Agent, v: (Outcome, nat)) {
    && a.attempts == v.1
    && match v.0
       case Undecided => InHealthLoop(a.pc)
       case Healthy => !InHealthLoop(a.pc) && GotHealthy(a)
       case Unhealthy => !InHealthLoop(a.pc) && GotUnhealthy(a)
  }

  /** The task of an agent waits for health as the loop does: its turns decide, whatever else happens in the run. */
  lemma {:induction false} TaskWaitsForHealth(a: Agent, ms: seq<Step>)
    requires EnabledRun(a, ms) && InHealthLoop(a.pc) && a.trace == [Starting] && a.attempts < MAX_ATTEMPTS
    ensures AgreesWith(Run(a, ms), Verdict(TurnsOf(a, ms), a.attempts))
    decreases |ms|
  {
    if ms != [] {
      var a1, rest := Apply(a, ms[0]), ms[1..];
      VerdictOfFirst(a, ms[0], TurnsOf(a1, rest));
      if InHealthLoop(a1.pc) {
        TaskWaitsForHealth(a1, rest);
      } else {
        RunAfterHealth(a1, rest);
      }
    }
  }

  lemma VerdictOfFirst(a: Agent, m: Step, rest: seq<Turn>)
    requires Enabled(a, m) && InHealthLoop(a.pc) && a.trace == [Starting] && a.attempts < MAX_ATTEMPTS
    ensures var a', v := Apply(a, m), Verdict(TurnOf(a, m) + rest, a.attempts);
            if InHealthLoop(a'.pc)
            then a'.trace == [Starting] && a'.attempts < MAX_ATTEMPTS && v == Verdict(rest, a'.attempts)
            else !a'.pc.Spawning? && AgreesWith(a', v)
  {
    var turn := TurnOf(a, m);
    if turn == [] { assert turn + rest == rest; } else { assert (turn + rest)[1..] == rest; }
  }
}
