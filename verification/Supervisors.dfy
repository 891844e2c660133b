/** A supervisor object: the map of stop signals, updated by `start`, `stop` and the tasks it spawned. */
module Supervisor {
  import opened RestartLoop

  class Supervisor {
    var procs: map<string, nat>
    var permits: set<nat>
    var tasks: map<nat, Task>
    var children: multiset<nat>
    var next: nat

    function World(): World
      reads this
    {
      RestartLoop.World(procs, permits, tasks, children, next)
    }

    constructor ()
      ensures World() == EMPTY
    {
      procs, permits, tasks, children, next := map[], {}, map[], multiset{}, 0;
    }

    method Start(workspace: string)
      modifies this
      ensures World() == ApplyStart(old(World()), workspace)
    {
      if workspace in procs {
        return;
      }
      procs := procs[workspace := next];
      tasks := tasks[next := Task(workspace, Spawning)];
      next := next + 1;
    }

    method Stop(workspace: string)
      modifies this
      ensures World() == ApplyStop(old(World()), workspace)
    {
      if workspace in procs {
        permits := permits + {procs[workspace]};
      }
    }

    method StopAll()
      modifies `permits
      ensures World() == old(World()).(permits := old(permits) + old(procs).Values)
    {
      var left := procs.Keys;
      while left != {}
        invariant left <= procs.Keys
        invariant permits == old(permits) + set n | n in procs.Keys - left :: procs[n]
        decreases |left|
      {
        var n :| n in left;
        permits := permits + {procs[n]};
        left := left - {n};
      }
    }

    method RunningWorkspaces() returns (names: seq<string>)
      ensures forall n :: n in names <==> n in procs
    {
      names := [];
      var left := procs.Keys;
      while left != {}
        invariant left <= procs.Keys
        invariant forall n :: n in names <==> n in procs.Keys - left
        decreases |left|
      {
        var n :| n in left;
        names := names + [n];
        left := left - {n};
      }
    }

    /** One event of one task's loop. */
    method Step(t: nat, e: Event)
      requires t in tasks && Ready(LocalOf(World(), t), e)
      modifies this
      ensures World() == ApplyLoop(old(World()), t, e)
    {
      var l := React(Local(tasks[t].pc, t in permits), e);
      tasks := tasks[t := Task(tasks[t].name, l.pc)];
      if !l.permit {
        permits := permits - {t};
      }
      children := children[t := ChildrenAfter(children[t], e)];
    }

    /** The last thing a task does. */
    method Finish(t: nat)
      requires t in tasks && tasks[t].pc.Leaving?
      modifies this
      ensures World() == ApplyRemove(old(World()), t)
    {
      procs := procs - {tasks[t].name};
      permits := permits - {t};
      tasks := tasks - {t};
    }

    /**
      What tasks do between two calls of a pass: of the moves offered, every task move possible at its turn is
      made.
    */
    method LetTasksRun(offered: seq<Move>, ghost w: World, ghost before: seq<Move>) returns (ghost ms: seq<Move>)
      requires EnabledRun(w, before) && World() == Run(w, before)
      modifies this
      ensures EnabledRun(w, ms) && World() == Run(w, ms)
      ensures Started(ms) == Started(before) && Stopped(ms) == Stopped(before)
    {
      ms := before;
      for i := 0 to |offered|
        invariant EnabledRun(w, ms) && World() == Run(w, ms)
        invariant Started(ms) == Started(before) && Stopped(ms) == Stopped(before)
      {
        match offered[i]
        case Loop(t, e) =>
          if t in tasks && Ready(Local(tasks[t].pc, t in permits), e) {
            NextMove(w, ms, offered[i]);
            Step(t, e);
            ms := ms + [offered[i]];
          }
        case Remove(t) =>
          if t in tasks && tasks[t].pc.Leaving? {
            NextMove(w, ms, offered[i]);
            Finish(t);
            ms := ms + [offered[i]];
          }
        case _ =>
      }
    }

    /** One call of a pass, and what tasks do after it. */
    method StartThenRun(name: string, offered: seq<Move>, ghost w: World, ghost before: seq<Move>)
      returns (ghost ms: seq<Move>)
      requires EnabledRun(w, before) && World() == Run(w, before)
      modifies this
      ensures EnabledRun(w, ms) && World() == Run(w, ms)
      ensures Started(ms) == Started(before) + {name} && Stopped(ms) == Stopped(before)
    {
      NextMove(w, before, RestartLoop.Start(name));
      Start(name);
      ms := LetTasksRun(offered, w, before + [RestartLoop.Start(name)]);
    }

    method StopThenRun(name: string, offered: seq<Move>, ghost w: World, ghost before: seq<Move>)
      returns (ghost ms: seq<Move>)
      requires EnabledRun(w, before) && World() == Run(w, before)
      modifies this
      ensures EnabledRun(w, ms) && World() == Run(w, ms)
      ensures Started(ms) == Started(before) && Stopped(ms) == Stopped(before) + {name}
    {
      NextMove(w, before, RestartLoop.Stop(name));
      Stop(name);
      ms := LetTasksRun(offered, w, before + [RestartLoop.Stop(name)]);
    }
  }
}

/** Reconciling the ACP supervisor with the store. */
module AcpSupervisor {
  import opened Wrappers
  import opened RestartLoop
  import opened Supervisor
  import State
  import Lifecycle

  /** A loaded project's ACP configuration, if it has one: whether it is enabled. */
  type Projects = map<string, Option<bool>>

  predicate IsEligible(ws: State.Workspace, projects: Projects) {
    && ws.active && ws.dir != ""
    && ws.project in projects && projects[ws.project] == Some(true)
    && ws.acpPort.Some?
  }

  function Eligible(m: State.Workspaces, projects: Projects): set<string> {
    set n | n in m && IsEligible(m[n], projects)
  }

  function Keep(m: State.Workspaces): set<string> {
    set n | n in m && m[n].active
  }

  /** A pass over the loaded store, visited in the given order; `between` is what tasks do after each of its steps. */
  method SyncWorkspaces(sup: Supervisor, loaded: Option<State.Workspaces>, projects: Projects,
                        order: seq<string>, between: nat -> seq<Move>) returns (ghost ms: seq<Move>)
    requires loaded.Some? ==> forall n :: n in order <==> n in loaded.value
    modifies sup
    ensures loaded.None? ==> sup.World() == old(sup.World())
    ensures loaded.Some? ==>
              && IsPass(old(sup.World()), ms, Eligible(loaded.value, projects), Keep(loaded.value))
              && sup.World() == Run(old(sup.World()), ms)
  {
    ms := [];
    if loaded.None? {
      return;
    }
    var m := loaded.value;
    var running := sup.RunningWorkspaces();
    ghost var w := sup.World();
    ms := sup.LetTasksRun(between(0), w, ms);
    ms := StartMissing(sup, m, projects, order, running, (i: nat) => between(1 + i), w, ms);
    ms := StopOthers(sup, m, running, (i: nat) => between(1 + |order| + i), w, ms);
  }

  method StartMissing(sup: Supervisor, m: State.Workspaces, projects: Projects, order: seq<string>,
                      running: seq<string>, between: nat -> seq<Move>, ghost w: World, ghost before: seq<Move>)
    returns (ghost ms: seq<Move>)
    requires forall n :: n in order <==> n in m
    requires EnabledRun(w, before) && sup.World() == Run(w, before) && Started(before) == {}
    modifies sup
    ensures EnabledRun(w, ms) && sup.World() == Run(w, ms)
    ensures Started(ms) == set n | n in Eligible(m, projects) && n !in running
    ensures Stopped(ms) == Stopped(before)
  {
    ms := before;
    for i := 0 to |order|
      invariant EnabledRun(w, ms) && sup.World() == Run(w, ms)
      invariant Started(ms) == set n | n in order[..i] && n in Eligible(m, projects) && n !in running
      invariant Stopped(ms) == Stopped(before)
    {
      var name := order[i];
      assert order[..i + 1] == order[..i] + [name] && name in order;
      var ws := m[name];
      if !ws.active || ws.dir == "" {
        continue;
      }
      if name in running {
        continue;
      }
      if ws.project !in projects {
        continue;
      }
      match projects[ws.project]
      case Some(enabled) =>
        if !enabled { continue; }
        if ws.acpPort.None? { continue; }
        ms := sup.StartThenRun(name, between(i), w, ms);
      case None => continue;
    }
    assert order[..|order|] == order;
  }

  method StopOthers(sup: Supervisor, m: State.Workspaces, running: seq<string>, between: nat -> seq<Move>,
                    ghost w: World, ghost before: seq<Move>) returns (ghost ms: seq<Move>)
    requires EnabledRun(w, before) && sup.World() == Run(w, before) && Stopped(before) == {}
    modifies sup
    ensures EnabledRun(w, ms) && sup.World() == Run(w, ms)
    ensures Started(ms) == Started(before)
    ensures Stopped(ms) == set n | n in running && n !in Keep(m)
  {
    ms := before;
    for i := 0 to |running|
      invariant EnabledRun(w, ms) && sup.World() == Run(w, ms)
      invariant Started(ms) == Started(before)
      invariant Stopped(ms) == set n | n in running[..i] && n !in Keep(m)
    {
      assert running[..i + 1] == running[..i] + [running[i]];
      if !(running[i] in m && m[running[i]].active) {
        ms := sup.StopThenRun(running[i], between(i), w, ms);
      }
    }
    assert running[..|running|] == running;
  }

  /**
    After a pass and the drain of its signals: running implies active; eligible implies running unless its old
    task was ending.
  */
  lemma SyncReconciles(w: World, ms: seq<Move>, m: State.Workspaces, projects: Projects)
    requires Inv(w) && IsPass(w, ms, Eligible(m, projects), Keep(m)) && Drained(Run(w, ms))
    ensures forall n :: n in Run(w, ms).procs ==> n in m && m[n].active
    ensures (forall n :: n in m && IsEligible(m[n], projects) ==> n in Run(w, ms).procs) <==>
            forall n :: n in m && IsEligible(m[n], projects) && n in w.procs ==> !Doomed(w, w.procs[n])
  {
    SyncThenDrain(w, ms, Eligible(m, projects), Keep(m));
    assert forall n :: n in Eligible(m, projects) <==> n in m && IsEligible(m[n], projects);
    assert Eligible(m, projects) <= Run(w, ms).procs.Keys <==>
           forall n :: n in m && IsEligible(m[n], projects) ==> n in Run(w, ms).procs;
  }

  /** Which workspaces a pass starts and stops, told from their fields. */
  lemma PassIsExact(w: World, ms: seq<Move>, m: State.Workspaces, projects: Projects, n: string)
    requires IsPass(w, ms, Eligible(m, projects), Keep(m))
    ensures n in Started(ms) <==>
            && n !in w.procs && n in m && m[n].active && m[n].dir != "" && m[n].acpPort != None
            && m[n].project in projects && projects[m[n].project].Some? && projects[m[n].project].value
    ensures n in Stopped(ms) <==> n in w.procs && (n !in m || !m[n].active)
  {}

  /**
    Joined to the workspace lifecycle: a pass over a supervisor without the entry starts a workspace that was
    brought up exactly when it has a directory and a port and its project is loaded with ACP enabled.
  */
  lemma BroughtUpIsStarted(w: World, ms: seq<Move>, m: State.Workspaces, q: Lifecycle.UpRequest, projects: Projects)
    requires q.name !in w.procs
    requires var m' := Lifecycle.BroughtUp(m, q); IsPass(w, ms, Eligible(m', projects), Keep(m'))
    ensures q.name in Started(ms) <==>
            && q.dir != "" && State.AcpPortFor(m, q.name).Some?
            && q.project in projects && projects[q.project].Some? && projects[q.project].value
  {
    Lifecycle.UpIsAsAsked(m, q);
  }

  /** A workspace taken down is started in no case, and stopped if it runs; so is one that is gone. */
  lemma TakenDownIsStopped(w: World, ms: seq<Move>, m: State.Workspaces, name: string, projects: Projects)
    requires var m' := State.WithInactive(m, name); IsPass(w, ms, Eligible(m', projects), Keep(m'))
    ensures name !in Started(ms) && (name in Stopped(ms) <==> name in w.procs)
  {}

  /** A workspace that is up is never stopped by a pass, whatever its project says by now. */
  lemma UpIsNotStopped(w: World, ms: seq<Move>, m: State.Workspaces, q: Lifecycle.UpRequest, projects: Projects)
    requires var m' := Lifecycle.BroughtUp(m, q); IsPass(w, ms, Eligible(m', projects), Keep(m'))
    ensures q.name !in Stopped(ms)
  {
    Lifecycle.UpIsAsAsked(m, q);
  }
}

/** Reconciling the bezalel supervisor: the same pass, for active headless workspaces with a port and a token. */
module BezalelSupervisor {
  import opened Wrappers
  import opened RestartLoop
  import opened Supervisor
  import State
  import Lifecycle

  predicate IsEligible(ws: State.Workspace) {
    ws.active && ws.headless && ws.dir != "" && ws.bezalelPort.Some? && ws.bezalelToken.Some?
  }

  function Eligible(m: State.Workspaces): set<string> {
    set n | n in m && IsEligible(m[n])
  }

  function Keep(m: State.Workspaces): set<string> {
    set n | n in m && m[n].active && m[n].headless
  }

  method SyncWorkspaces(sup: Supervisor, loaded: Option<State.Workspaces>, order: seq<string>,
                        between: nat -> seq<Move>) returns (ghost ms: seq<Move>)
    requires loaded.Some? ==> forall n :: n in order <==> n in loaded.value
    modifies sup
    ensures loaded.None? ==> sup.World() == old(sup.World())
    ensures loaded.Some? ==>
              && IsPass(old(sup.World()), ms, Eligible(loaded.value), Keep(loaded.value))
              && sup.World() == Run(old(sup.World()), ms)
  {
    ms := [];
    if loaded.None? {
      return;
    }
    var m := loaded.value;
    var running := sup.RunningWorkspaces();
    ghost var w := sup.World();
    ms := sup.LetTasksRun(between(0), w, ms);
    ms := StartMissing(sup, m, order, running, (i: nat) => between(1 + i), w, ms);
    ms := StopOthers(sup, m, running, (i: nat) => between(1 + |order| + i), w, ms);
  }

  method StartMissing(sup: Supervisor, m: State.Workspaces, order: seq<string>, running: seq<string>,
                      between: nat -> seq<Move>, ghost w: World, ghost before: seq<Move>) returns (ghost ms: seq<Move>)
    requires forall n :: n in order <==> n in m
    requires EnabledRun(w, before) && sup.World() == Run(w, before) && Started(before) == {}
    modifies sup
    ensures EnabledRun(w, ms) && sup.World() == Run(w, ms)
    ensures Started(ms) == set n | n in Eligible(m) && n !in running
    ensures Stopped(ms) == Stopped(before)
  {
    ms := before;
    for i := 0 to |order|
      invariant EnabledRun(w, ms) && sup.World() == Run(w, ms)
      invariant Started(ms) == set n | n in order[..i] && n in Eligible(m) && n !in running
      invariant Stopped(ms) == Stopped(before)
    {
      var name := order[i];
      assert order[..i + 1] == order[..i] + [name] && name in order;
      var ws := m[name];
      if !ws.active || !ws.headless || ws.dir == "" {
        continue;
      }
      if name in running {
        continue;
      }
      if ws.bezalelPort.None? { continue; }
      if ws.bezalelToken.None? { continue; }
      ms := sup.StartThenRun(name, between(i), w, ms);
    }
    assert order[..|order|] == order;
  }

  method StopOthers(sup: Supervisor, m: State.Workspaces, running: seq<string>, between: nat -> seq<Move>,
                    ghost w: World, ghost before: seq<Move>) returns (ghost ms: seq<Move>)
    requires EnabledRun(w, before) && sup.World() == Run(w, before) && Stopped(before) == {}
    modifies sup
    ensures EnabledRun(w, ms) && sup.World() == Run(w, ms)
    ensures Started(ms) == Started(before)
    ensures Stopped(ms) == set n | n in running && n !in Keep(m)
  {
    ms := before;
    for i := 0 to |running|
      invariant EnabledRun(w, ms) && sup.World() == Run(w, ms)
      invariant Started(ms) == Started(before)
      invariant Stopped(ms) == set n | n in running[..i] && n !in Keep(m)
    {
      assert running[..i + 1] == running[..i] + [running[i]];
      if !(running[i] in m && m[running[i]].active && m[running[i]].headless) {
        ms := sup.StopThenRun(running[i], between(i), w, ms);
      }
    }
    assert running[..|running|] == running;
  }

  lemma SyncReconciles(w: World, ms: seq<Move>, m: State.Workspaces)
    requires Inv(w) && IsPass(w, ms, Eligible(m), Keep(m)) && Drained(Run(w, ms))
    ensures forall n :: n in Run(w, ms).procs ==> n in m && m[n].active && m[n].headless
    ensures (forall n :: n in m && IsEligible(m[n]) ==> n in Run(w, ms).procs) <==>
            forall n :: n in m && IsEligible(m[n]) && n in w.procs ==> !Doomed(w, w.procs[n])
  {
    SyncThenDrain(w, ms, Eligible(m), Keep(m));
    assert forall n :: n in Eligible(m) <==> n in m && IsEligible(m[n]);
    assert Eligible(m) <= Run(w, ms).procs.Keys <==> forall n :: n in m && IsEligible(m[n]) ==> n in Run(w, ms).procs;
  }

  /** Which workspaces a pass starts and stops, told from their fields. */
  lemma PassIsExact(w: World, ms: seq<Move>, m: State.Workspaces, n: string)
    requires IsPass(w, ms, Eligible(m), Keep(m))
    ensures n in Started(ms) <==>
            && n !in w.procs && n in m && m[n].active && m[n].headless && m[n].dir != ""
            && m[n].bezalelPort != None && m[n].bezalelToken != None
    ensures n in Stopped(ms) <==> n in w.procs && (n !in m || !m[n].active || !m[n].headless)
  {}

  /**
    A workspace brought up headless gets a port if one is free, and a pass over a supervisor without its entry
    then starts it if it has a directory. One first brought up otherwise is not started.
  */
  lemma BroughtUpIsStarted(w: World, ms: seq<Move>, m: State.Workspaces, q: Lifecycle.UpRequest)
    requires q.name !in w.procs
    requires var m' := Lifecycle.BroughtUp(m, q); IsPass(w, ms, Eligible(m'), Keep(m'))
    ensures q.headless && Lifecycle.HasFreeBezalel(m, q.unavailable, q.name) ==>
              (q.name in Started(ms) <==> q.dir != "")
    ensures !q.headless && q.name !in m ==> q.name !in Started(ms)
  {
    Lifecycle.UpIsAsAsked(m, q);
    Lifecycle.HeadlessGetsBezalel(m, q);
  }

  /** A workspace taken down, or up but not headless, is not started, and is stopped if it runs. */
  lemma NotHeadlessIsStopped(w: World, ms: seq<Move>, m: State.Workspaces, q: Lifecycle.UpRequest)
    requires var m' := State.WithInactive(m, q.name);
             IsPass(w, ms, Eligible(m'), Keep(m')) || (!q.headless &&
               IsPass(w, ms, Eligible(Lifecycle.BroughtUp(m', q)), Keep(Lifecycle.BroughtUp(m', q))))
    ensures q.name !in Started(ms) && (q.name in Stopped(ms) <==> q.name in w.procs)
  {
    Lifecycle.UpIsAsAsked(State.WithInactive(m, q.name), q);
    Lifecycle.HeadlessGetsBezalel(State.WithInactive(m, q.name), q);
  }
}
