/**
  The SQLite-backed store: three tables, the statements that change them, and the two allocators.
  A table is a map from its primary key; foreign keys are enforced and deletions cascade.
*/
module ArpStore {
  import opened Wrappers
  import opened Allocation
  import State

  datatype WorkspaceRow = WorkspaceRow(project: string, active: bool, tagIndex: int, dir: string, acpPort: Option<int>)

  datatype AgentRow = AgentRow(id: string, workspace: string, name: string, status: string, port: int, pid: Option<int>)

  datatype TaskRow = TaskRow(contextId: Option<string>, status: string)

  datatype TaskKey = TaskKey(agent: string, task: string)

  datatype Db = Db(workspaces: map<string, WorkspaceRow>, agents: map<string, AgentRow>, tasks: map<TaskKey, TaskRow>)

  datatype Op =
    | CreateWorkspace(name: string, project: string, dir: string)
    | ActivateWorkspace(name: string, tagIndex: int, dir: string, acpPort: Option<int>)
    | DeactivateWorkspace(name: string)
    | DestroyWorkspace(name: string)
    | AddAgent(row: AgentRow)
    | UpdateAgentStatus(id: string, status: string)
    | UpdateAgentPid(id: string, pid: int)
    | RemoveAgent(id: string)
    | TrackTask(agent: string, task: string, contextId: Option<string>)
    | CompleteTask(agent: string, task: string, status: string)
    | ClearAgentTasks(agent: string)

  /** Inserts fail on a taken primary key or a missing parent; updates and deletes of nothing succeed. */
  predicate Succeeds(db: Db, op: Op) {
    match op
    case CreateWorkspace(name, _, _) => name !in db.workspaces
    case AddAgent(row) => row.id !in db.agents && row.workspace in db.workspaces
    case TrackTask(agent, task, _) => TaskKey(agent, task) !in db.tasks && agent in db.agents
    case _ => true
  }

  /** Deleting agent rows takes their task rows along. */
  function WithoutAgents(db: Db, ids: set<string>): Db {
    db.(agents := db.agents - ids, tasks := map k | k in db.tasks && k.agent !in ids :: db.tasks[k])
  }

  function AgentsOf(db: Db, workspace: string): set<string> {
    set a | a in db.agents && db.agents[a].workspace == workspace
  }

  function Apply(db: Db, op: Op): Db {
    if !Succeeds(db, op) then db else
    match op
    case CreateWorkspace(name, project, dir) =>
      db.(workspaces := db.workspaces[name := WorkspaceRow(project, true, 0, dir, None)])
    case ActivateWorkspace(name, tag, dir, port) =>
      if name !in db.workspaces then db else
      db.(workspaces := db.workspaces[name := WorkspaceRow(db.workspaces[name].project, true, tag, dir, port)])
    case DeactivateWorkspace(name) =>
      if name !in db.workspaces then db else
      db.(workspaces := db.workspaces[name := WorkspaceRow(db.workspaces[name].project, false, 0, "", None)])
    case DestroyWorkspace(name) =>
      WithoutAgents(db, if name in db.workspaces then AgentsOf(db, name) else {}).(workspaces := db.workspaces - {name})
    case AddAgent(row) => db.(agents := db.agents[row.id := row])
    case UpdateAgentStatus(id, status) =>
      if id !in db.agents then db else db.(agents := db.agents[id := db.agents[id].(status := status)])
    case UpdateAgentPid(id, pid) =>
      if id !in db.agents then db else db.(agents := db.agents[id := db.agents[id].(pid := Some(pid))])
    case RemoveAgent(id) => WithoutAgents(db, {id})
    case TrackTask(agent, task, ctx) => db.(tasks := db.tasks[TaskKey(agent, task) := TaskRow(ctx, "working")])
    case CompleteTask(agent, task, status) =>
      var k := TaskKey(agent, task);
      if k !in db.tasks then db else db.(tasks := db.tasks[k := db.tasks[k].(status := status)])
    case ClearAgentTasks(agent) => db.(tasks := map k | k in db.tasks && k.agent != agent :: db.tasks[k])
  }

  const EMPTY := Db(map[], map[], map[])

  class ArpStore {
    var db: Db

    constructor ()
      ensures db == EMPTY
    {
      db := EMPTY;
    }

    /** Run one statement; false stands for the error SQLite reports. */
    method Execute(op: Op) returns (ok: bool)
      modifies this
      ensures ok == Succeeds(old(db), op)
      ensures db == Apply(old(db), op)
      ensures Intact(old(db)) ==> Intact(db)
    {
      if Intact(db) { StatementKeepsIntact(db, op); }
      ok := Succeeds(db, op);
      db := Apply(db, op);
    }

    method AllocateTagIndex() returns (idx: int)
      ensures idx == FirstFree(UsedTags(db), State.TAG_OFFSET)
    {
      var used := UsedTags(db);
      idx := State.TAG_OFFSET;
      ghost var above := used;
      while idx in used
        invariant forall j :: j >= idx ==> (j in used <==> j in above)
        invariant FirstFree(above, idx) == FirstFree(used, State.TAG_OFFSET)
        decreases |above|
      {
        above := above - {idx};
        idx := idx + 1;
      }
    }

    method AllocateAgentPort(unavailable: set<int>) returns (r: Option<int>)
      ensures r == PortFrom(UsedPorts(db) + unavailable, State.ACP_PORT_BASE, State.ACP_PORT_MAX)
    {
      r := State.SearchPort(UsedPorts(db), unavailable, State.ACP_PORT_BASE, State.ACP_PORT_MAX);
    }
  }

  // ---- allocators ----

  function UsedTags(db: Db): set<int> {
    set n | n in db.workspaces && db.workspaces[n].active && db.workspaces[n].tagIndex >= State.TAG_OFFSET
      :: db.workspaces[n].tagIndex
  }

  function UsedPorts(db: Db): set<int> {
    (set n | n in db.workspaces && db.workspaces[n].active && db.workspaces[n].acpPort.Some?
       :: db.workspaces[n].acpPort.value)
    + (set a | a in db.agents :: db.agents[a].port)
  }

  ghost predicate HoldsTag(db: Db, i: int) {
    exists n :: n in db.workspaces && db.workspaces[n].active && db.workspaces[n].tagIndex == i
  }

  ghost predicate HoldsPort(db: Db, p: int) {
    || (exists n :: n in db.workspaces && db.workspaces[n].active && db.workspaces[n].acpPort == Some(p))
    || (exists a :: a in db.agents && db.agents[a].port == p)
  }

  function ActiveRows(db: Db): set<string> { set n | n in db.workspaces && db.workspaces[n].active }

  lemma UsedTagsSize(db: Db)
    ensures |UsedTags(db)| <= |ActiveRows(db)|
  {
    var tagged := set n | n in ActiveRows(db) && db.workspaces[n].tagIndex >= State.TAG_OFFSET;
    var f := (n: string) => if n in db.workspaces then db.workspaces[n].tagIndex else 0;
    ImageSize(tagged, f);
    forall i ensures i in UsedTags(db) <==> i in Image(tagged, f) {
      if i in UsedTags(db) {
        var n :| n in tagged && db.workspaces[n].tagIndex == i;
        assert f(n) == i;
      }
    }
    assert UsedTags(db) == Image(tagged, f);
    State.SubsetSize(tagged, ActiveRows(db));
  }

  /** The allocated tag is the least free one from ten up, and at most ten plus the number of active workspaces. */
  lemma FreshTag(db: Db)
    ensures var i := FirstFree(UsedTags(db), State.TAG_OFFSET);
            && State.TAG_OFFSET <= i <= State.TAG_OFFSET + |ActiveRows(db)| && !HoldsTag(db, i)
            && forall j :: State.TAG_OFFSET <= j < i ==> HoldsTag(db, j)
  {
    FirstFreeIsLeast(UsedTags(db), State.TAG_OFFSET);
    UsedTagsSize(db);
    forall j | j >= State.TAG_OFFSET ensures j in UsedTags(db) <==> HoldsTag(db, j) {
      if n :| n in db.workspaces && db.workspaces[n].active && db.workspaces[n].tagIndex == j {
        assert db.workspaces[n].tagIndex in UsedTags(db);
      }
    }
  }

  /**
    The allocated port is the least one available and held by no active workspace and no agent; it fails only
    on a full range.
  */
  lemma FreshPort(db: Db, unavailable: set<int>)
    ensures match PortFrom(UsedPorts(db) + unavailable, State.ACP_PORT_BASE, State.ACP_PORT_MAX)
            case Some(p) =>
              && State.ACP_PORT_BASE <= p <= State.ACP_PORT_MAX && p !in unavailable && !HoldsPort(db, p)
              && forall j :: State.ACP_PORT_BASE <= j < p && j !in unavailable ==> HoldsPort(db, j)
            case None =>
              forall j :: State.ACP_PORT_BASE <= j <= State.ACP_PORT_MAX && j !in unavailable ==> HoldsPort(db, j)
  {
    var blocked := UsedPorts(db) + unavailable;
    PortFromIsLeast(blocked, State.ACP_PORT_BASE, State.ACP_PORT_MAX);
    forall j ensures j in blocked <==> j in unavailable || HoldsPort(db, j) {
      if n :| n in db.workspaces && db.workspaces[n].active && db.workspaces[n].acpPort == Some(j) {
        assert db.workspaces[n].acpPort.value in blocked;
      }
      if a :| a in db.agents && db.agents[a].port == j {
        assert db.agents[a].port in blocked;
      }
    }
  }

  // ---- referential integrity ----

  ghost predicate Intact(db: Db) {
    && (forall a :: a in db.agents ==> db.agents[a].id == a && db.agents[a].workspace in db.workspaces)
    && (forall k :: k in db.tasks ==> k.agent in db.agents)
  }

  lemma StatementKeepsIntact(db: Db, op: Op)
    requires Intact(db)
    ensures Intact(Apply(db, op))
  {}

  /** Destroying a workspace takes exactly its row, its agents and their tasks. */
  lemma DestroyIsExact(db: Db, name: string)
    requires Intact(db)
    ensures var db' := Apply(db, DestroyWorkspace(name));
            && db'.workspaces == db.workspaces - {name}
            && (forall a :: a in db'.agents <==> a in db.agents && db.agents[a].workspace != name)
            && (forall a :: a in db'.agents ==> db'.agents[a] == db.agents[a])
            && (forall k :: k in db'.tasks <==>
                  k in db.tasks && k.agent in db.agents && db.agents[k.agent].workspace != name)
            && (forall k :: k in db'.tasks ==> db'.tasks[k] == db.tasks[k])
  {}

  function Run(db: Db, ops: seq<Op>): Db
    decreases |ops|
  {
    if ops == [] then db else Apply(Run(db, ops[..|ops| - 1]), ops[|ops| - 1])
  }

  // ---- the active tasks of an agent, told from the history of statements alone ----

  /** The statements of a history that took effect. */
  function Log(ops: seq<Op>): seq<Op>
    decreases |ops|
  {
    if ops == [] then [] else
    var n := |ops| - 1;
    Log(ops[..n]) + if Succeeds(Run(EMPTY, ops[..n]), ops[n]) then [ops[n]] else []
  }

  /** The workspace an agent was last added to. */
  function Home(log: seq<Op>, agent: string): Option<string>
    decreases |log|
  {
    if log == [] then None else
    var op := log[|log| - 1];
    if op.AddAgent? && op.row.id == agent then Some(op.row.workspace) else Home(log[..|log| - 1], agent)
  }

  /** Statement `j` deletes all tasks of the agent: it clears them, or removes the agent or its workspace. */
  predicate Ends(log: seq<Op>, j: nat, agent: string)
    requires j < |log|
  {
    || log[j] == ClearAgentTasks(agent)
    || log[j] == RemoveAgent(agent)
    || (log[j].DestroyWorkspace? && Home(log[..j], agent) == Some(log[j].name))
  }

  predicate Tracks(op: Op, agent: string, task: string) {
    op.TrackTask? && op.agent == agent && op.task == task
  }

  predicate Finishes(op: Op, agent: string, task: string) {
    op.CompleteTask? && op.agent == agent && op.task == task && op.status != "working"
  }

  predicate Revives(op: Op, agent: string, task: string) {
    op == CompleteTask(agent, task, "working")
  }

  ghost predicate KnownSince(log: seq<Op>, i: nat, agent: string, task: string)
    requires i < |log|
  {
    Tracks(log[i], agent, task) && forall j :: i < j < |log| ==> !Ends(log, j, agent)
  }

  /** Tracked, and not cleared or cascaded since. */
  ghost predicate Known(log: seq<Op>, agent: string, task: string) {
    exists i: nat :: i < |log| && KnownSince(log, i, agent, task)
  }

  ghost predicate UnfinishedSince(log: seq<Op>, k: nat, agent: string, task: string)
    requires k < |log|
  {
    && (Tracks(log[k], agent, task) || Revives(log[k], agent, task))
    && forall j :: k < j < |log| ==> !Finishes(log[j], agent, task)
  }

  /** Known, and not completed with a status other than 'working' since it was tracked or last set back to it. */
  ghost predicate ActiveInLog(log: seq<Op>, agent: string, task: string) {
    exists i: nat, k: nat :: i <= k < |log| && KnownSince(log, i, agent, task) && UnfinishedSince(log, k, agent, task)
  }

  predicate IsActive(db: Db, agent: string, task: string) {
    var k := TaskKey(agent, task);
    k in db.tasks && db.tasks[k].status == "working"
  }

  lemma EndsInPrefix(log: seq<Op>, op: Op, j: nat, agent: string)
    requires j < |log|
    ensures Ends(log + [op], j, agent) == Ends(log, j, agent)
  {
    assert (log + [op])[..j] == log[..j];
  }

  lemma KnownStep(log: seq<Op>, op: Op, agent: string, task: string)
    ensures var log', n := log + [op], |log|;
            Known(log', agent, task) <==> Tracks(op, agent, task) || (Known(log, agent, task) && !Ends(log', n, agent))
  {
    var log', n := log + [op], |log|;
    forall j: nat | j < n ensures log'[j] == log[j] && Ends(log', j, agent) == Ends(log, j, agent) {
      EndsInPrefix(log, op, j, agent);
    }
    if Tracks(op, agent, task) { assert KnownSince(log', n, agent, task); }
    if i: nat :| i < n && KnownSince(log, i, agent, task) {
      if !Ends(log', n, agent) { assert KnownSince(log', i, agent, task); }
    }
    if i: nat :| i < |log'| && KnownSince(log', i, agent, task) {
      if i < n { assert KnownSince(log, i, agent, task); }
    }
  }

  lemma ActiveStep(log: seq<Op>, op: Op, agent: string, task: string)
    ensures var log', n := log + [op], |log|;
            ActiveInLog(log', agent, task) <==>
              || Tracks(op, agent, task)
              || (Known(log, agent, task) && Revives(op, agent, task))
              || (ActiveInLog(log, agent, task) && !Ends(log', n, agent) && !Finishes(op, agent, task))
  {
    var log', n := log + [op], |log|;
    forall j: nat | j < n ensures log'[j] == log[j] && Ends(log', j, agent) == Ends(log, j, agent) {
      EndsInPrefix(log, op, j, agent);
    }
    if Tracks(op, agent, task) {
      assert KnownSince(log', n, agent, task) && UnfinishedSince(log', n, agent, task);
    }
    if i: nat :| i < n && KnownSince(log, i, agent, task) {
      if Revives(op, agent, task) {
        assert KnownSince(log', i, agent, task) && UnfinishedSince(log', n, agent, task);
      }
    }
    if i: nat, k: nat :| i <= k < n && KnownSince(log, i, agent, task) && UnfinishedSince(log, k, agent, task) {
      if !Ends(log', n, agent) && !Finishes(op, agent, task) {
        assert KnownSince(log', i, agent, task) && UnfinishedSince(log', k, agent, task);
      }
    }
    if i: nat, k: nat :| i <= k < |log'| && KnownSince(log', i, agent, task) && UnfinishedSince(log', k, agent, task) {
      if i < n { assert KnownSince(log, i, agent, task); }
      if k < n { assert UnfinishedSince(log, k, agent, task); }
    }
  }

  ghost predicate LogMatches(db: Db, log: seq<Op>) {
    && (forall a :: a in db.agents ==> Home(log, a) == Some(db.agents[a].workspace))
    && (forall a, t :: TaskKey(a, t) in db.tasks <==> Known(log, a, t))
    && (forall a, t :: IsActive(db, a, t) <==> ActiveInLog(log, a, t))
  }

  lemma StatementKeepsTask(db: Db, log: seq<Op>, op: Op, a: string, t: string)
    requires Intact(db) && LogMatches(db, log) && Succeeds(db, op)
    ensures TaskKey(a, t) in Apply(db, op).tasks <==> Known(log + [op], a, t)
    ensures IsActive(Apply(db, op), a, t) <==> ActiveInLog(log + [op], a, t)
  {
    KnownStep(log, op, a, t);
    ActiveStep(log, op, a, t);
    TaskAfter(db, op, a, t);
    TaskStatusAfter(db, op, a, t);
    assert (log + [op])[..|log|] == log;
    if a in db.agents { assert Home(log, a) == Some(db.agents[a].workspace); }
    if TaskKey(a, t) in db.tasks { assert a in db.agents; }
  }

  predicate EndsNow(db: Db, op: Op, a: string) {
    || op == ClearAgentTasks(a) || op == RemoveAgent(a)
    || (op.DestroyWorkspace? && a in db.agents && db.agents[a].workspace == op.name)
  }

  /** What one statement does to one task row. */
  lemma TaskAfter(db: Db, op: Op, a: string, t: string)
    requires Intact(db) && Succeeds(db, op)
    ensures TaskKey(a, t) in Apply(db, op).tasks <==>
            Tracks(op, a, t) || (TaskKey(a, t) in db.tasks && !EndsNow(db, op, a))
  {
    match op
    case DestroyWorkspace(name) => DestroyIsExact(db, name);
    case _ =>
  }

  lemma TaskStatusAfter(db: Db, op: Op, a: string, t: string)
    requires Intact(db) && Succeeds(db, op)
    ensures IsActive(Apply(db, op), a, t) <==>
              || Tracks(op, a, t)
              || (TaskKey(a, t) in db.tasks && Revives(op, a, t))
              || (IsActive(db, a, t) && !EndsNow(db, op, a) && !Finishes(op, a, t))
  {
    TaskAfter(db, op, a, t);
    if op.CompleteTask? || op.TrackTask? {
    } else if TaskKey(a, t) in Apply(db, op).tasks {
      assert Apply(db, op).tasks[TaskKey(a, t)] == db.tasks[TaskKey(a, t)];
    }
  }

  lemma StatementKeepsMatch(db: Db, log: seq<Op>, op: Op)
    requires Intact(db) && LogMatches(db, log) && Succeeds(db, op)
    ensures LogMatches(Apply(db, op), log + [op])
  {
    assert (log + [op])[..|log|] == log;
    forall a, t
      ensures TaskKey(a, t) in Apply(db, op).tasks <==> Known(log + [op], a, t)
      ensures IsActive(Apply(db, op), a, t) <==> ActiveInLog(log + [op], a, t)
    {
      StatementKeepsTask(db, log, op, a, t);
    }
  }

  /** After any history of statements: the tables are intact, and an agent's active tasks are those its history says. */
  lemma {:induction false} HistoryTellsTasks(ops: seq<Op>)
    ensures Intact(Run(EMPTY, ops)) && LogMatches(Run(EMPTY, ops), Log(ops))
    decreases |ops|
  {
    if ops != [] {
      var n := |ops| - 1;
      HistoryTellsTasks(ops[..n]);
      StatementKeepsIntact(Run(EMPTY, ops[..n]), ops[n]);
      if Succeeds(Run(EMPTY, ops[..n]), ops[n]) {
        StatementKeepsMatch(Run(EMPTY, ops[..n]), Log(ops[..n]), ops[n]);
      } else {
        assert Log(ops) == Log(ops[..n]);
      }
    }
  }

  function ActiveTasks(db: Db, agent: string): set<string> {
    set k | k in db.tasks && k.agent == agent && db.tasks[k].status == "working" :: k.task
  }

  lemma ActiveTasksFromHistory(ops: seq<Op>, agent: string, task: string)
    ensures task in ActiveTasks(Run(EMPTY, ops), agent) <==> ActiveInLog(Log(ops), agent, task)
  {
    HistoryTellsTasks(ops);
    var db := Run(EMPTY, ops);
    if IsActive(db, agent, task) { assert TaskKey(agent, task).task in ActiveTasks(db, agent); }
  }

  // ---- workspaces and agents, told from the history ----

  /**
    What a statement can be about: a workspace's being there, its state, an agent's row, its status, its
    process, a task.
  */
  datatype Topic =
    | Being(ws: string) | Standing(ws: string)
    | Arrival(id: string) | Status(id: string) | Process(id: string)
    | Tracking(agent: string, task: string) | Progress(agent: string, task: string)

  predicate Concerns(op: Op, topic: Topic) {
    match topic
    case Being(ws) => (op.CreateWorkspace? || op.DestroyWorkspace?) && op.name == ws
    case Standing(ws) => (op.CreateWorkspace? || op.ActivateWorkspace? || op.DeactivateWorkspace?) && op.name == ws
    case Arrival(id) => op.AddAgent? && op.row.id == id
    case Status(id) => (op.AddAgent? && op.row.id == id) || (op.UpdateAgentStatus? && op.id == id)
    case Process(id) => (op.AddAgent? && op.row.id == id) || (op.UpdateAgentPid? && op.id == id)
    case Tracking(agent, task) => op.TrackTask? && op.agent == agent && op.task == task
    case Progress(agent, task) => (op.TrackTask? || op.CompleteTask?) && op.agent == agent && op.task == task
  }

  /** The latest statement about a topic. */
  function Latest(log: seq<Op>, topic: Topic): (r: Option<Op>)
    ensures r.Some? ==> Concerns(r.value, topic)
    decreases |log|
  {
    if log == [] then None
    else if Concerns(log[|log| - 1], topic) then Some(log[|log| - 1])
    else Latest(log[..|log| - 1], topic)
  }

  lemma LatestAfter(log: seq<Op>, op: Op, topic: Topic)
    ensures Latest(log + [op], topic) == if Concerns(op, topic) then Some(op) else Latest(log, topic)
  {
    assert (log + [op])[..|log|] == log;
  }

  /** A workspace stands as the statement left it. */
  predicate StandsAs(row: WorkspaceRow, op: Op) {
    match op
    case CreateWorkspace(_, _, dir) => row.active && row.tagIndex == 0 && row.dir == dir && row.acpPort == None
    case ActivateWorkspace(_, tag, dir, port) =>
      row.active && row.tagIndex == tag && row.dir == dir && row.acpPort == port
    case DeactivateWorkspace(_) => !row.active && row.tagIndex == 0 && row.dir == "" && row.acpPort == None
    case _ => false
  }

  ghost predicate WorkspaceTold(db: Db, log: seq<Op>, n: string) {
    var being, standing := Latest(log, Being(n)), Latest(log, Standing(n));
    && (n in db.workspaces <==> being.Some? && being.value.CreateWorkspace?)
    && (n in db.workspaces ==>
          && db.workspaces[n].project == being.value.project
          && standing.Some? && StandsAs(db.workspaces[n], standing.value))
  }

  lemma StatementKeepsWorkspace(db: Db, log: seq<Op>, op: Op, n: string)
    requires WorkspaceTold(db, log, n) && Succeeds(db, op)
    ensures WorkspaceTold(Apply(db, op), log + [op], n)
  {
    LatestAfter(log, op, Being(n));
    LatestAfter(log, op, Standing(n));
  }

  /**
    After any history: a workspace is there when it was last created rather than destroyed, with the project it was
    created for, and in the state its last creation, activation or deactivation gave it.
  */
  lemma {:induction false} WorkspacesFromHistory(ops: seq<Op>, n: string)
    ensures WorkspaceTold(Run(EMPTY, ops), Log(ops), n)
    decreases |ops|
  {
    if ops != [] {
      var k := |ops| - 1;
      WorkspacesFromHistory(ops[..k], n);
      if Succeeds(Run(EMPTY, ops[..k]), ops[k]) {
        StatementKeepsWorkspace(Run(EMPTY, ops[..k]), Log(ops[..k]), ops[k], n);
      } else {
        assert Log(ops) == Log(ops[..k]);
      }
    }
  }

  /** Statement `j` deletes the agent: it removes it or its workspace. */
  predicate Removes(log: seq<Op>, j: nat, agent: string)
    requires j < |log|
  {
    log[j] == RemoveAgent(agent) || (log[j].DestroyWorkspace? && Home(log[..j], agent) == Some(log[j].name))
  }

  /** Added, and not removed or cascaded since. */
  ghost predicate Present(log: seq<Op>, agent: string) {
    exists i: nat :: i < |log| && PresentSince(log, i, agent)
  }

  ghost predicate PresentSince(log: seq<Op>, i: nat, agent: string)
    requires i < |log|
  {
    Concerns(log[i], Arrival(agent)) && forall j :: i < j < |log| ==> !Removes(log, j, agent)
  }

  lemma PresentStep(log: seq<Op>, op: Op, agent: string)
    ensures var log' := log + [op];
            Present(log', agent) <==>
            Concerns(op, Arrival(agent)) || (Present(log, agent) && !Removes(log', |log|, agent))
  {
    var log', n := log + [op], |log|;
    forall j: nat | j < n ensures log'[j] == log[j] && Removes(log', j, agent) == Removes(log, j, agent) {
      assert log'[..j] == log[..j];
    }
    if Concerns(op, Arrival(agent)) { assert PresentSince(log', n, agent); }
    if i: nat :| i < n && PresentSince(log, i, agent) {
      if !Removes(log', n, agent) { assert PresentSince(log', i, agent); }
    }
    if i: nat :| i < |log'| && PresentSince(log', i, agent) {
      if i < n { assert PresentSince(log, i, agent); }
    }
  }

  ghost predicate AgentTold(db: Db, log: seq<Op>, id: string) {
    var arrival, status, process := Latest(log, Arrival(id)), Latest(log, Status(id)), Latest(log, Process(id));
    && (id in db.agents <==> Present(log, id))
    && (id in db.agents ==>
          && arrival.Some? && status.Some? && process.Some?
          && db.agents[id].id == id
          && db.agents[id].workspace == arrival.value.row.workspace
          && db.agents[id].name == arrival.value.row.name && db.agents[id].port == arrival.value.row.port
          && db.agents[id].status == (if status.value.AddAgent? then status.value.row.status else status.value.status)
          && db.agents[id].pid == (if process.value.AddAgent? then process.value.row.pid else Some(process.value.pid)))
  }

  lemma StatementKeepsAgent(db: Db, log: seq<Op>, op: Op, id: string)
    requires AgentTold(db, log, id) && Succeeds(db, op)
    requires id in db.agents ==>
               Home(log, id) == Some(db.agents[id].workspace) && db.agents[id].workspace in db.workspaces
    ensures AgentTold(Apply(db, op), log + [op], id)
  {
    LatestAfter(log, op, Arrival(id));
    LatestAfter(log, op, Status(id));
    LatestAfter(log, op, Process(id));
    PresentStep(log, op, id);
    assert (log + [op])[..|log|] == log;
  }

  /**
    After any history: an agent is there when it was added and not removed or cascaded since, as it was last added,
    with the status and the process last written for it.
  */
  lemma {:induction false} AgentsFromHistory(ops: seq<Op>, id: string)
    ensures AgentTold(Run(EMPTY, ops), Log(ops), id)
    decreases |ops|
  {
    if ops != [] {
      var k := |ops| - 1;
      AgentsFromHistory(ops[..k], id);
      HistoryTellsTasks(ops[..k]);
      if Succeeds(Run(EMPTY, ops[..k]), ops[k]) {
        StatementKeepsAgent(Run(EMPTY, ops[..k]), Log(ops[..k]), ops[k], id);
      } else {
        assert Log(ops) == Log(ops[..k]);
      }
    }
  }

  ghost predicate TaskTold(db: Db, log: seq<Op>, agent: string, task: string) {
    var k := TaskKey(agent, task);
    var tracking, progress := Latest(log, Tracking(agent, task)), Latest(log, Progress(agent, task));
    k in db.tasks ==>
      && tracking.Some? && progress.Some?
      && db.tasks[k].contextId == tracking.value.contextId
      && db.tasks[k].status == (if progress.value.TrackTask? then "working" else progress.value.status)
  }

  lemma StatementKeepsTaskRow(db: Db, log: seq<Op>, op: Op, agent: string, task: string)
    requires TaskTold(db, log, agent, task) && Succeeds(db, op)
    ensures TaskTold(Apply(db, op), log + [op], agent, task)
  {
    LatestAfter(log, op, Tracking(agent, task));
    LatestAfter(log, op, Progress(agent, task));
  }

  /** After any history: a task that is there has the context it was last tracked with and the status last written. */
  lemma {:induction false} TasksFromHistory(ops: seq<Op>, agent: string, task: string)
    ensures TaskTold(Run(EMPTY, ops), Log(ops), agent, task)
    decreases |ops|
  {
    if ops != [] {
      var k := |ops| - 1;
      TasksFromHistory(ops[..k], agent, task);
      if Succeeds(Run(EMPTY, ops[..k]), ops[k]) {
        StatementKeepsTaskRow(Run(EMPTY, ops[..k]), Log(ops[..k]), ops[k], agent, task);
      } else {
        assert Log(ops) == Log(ops[..k]);
      }
    }
  }

  /**
    A statement takes effect exactly when it adds nothing twice and nothing without its parent, and else
    changes nothing.
  */
  lemma FailingStatements(db: Db, op: Op)
    ensures !Succeeds(db, op) <==>
            || (op.CreateWorkspace? && op.name in db.workspaces)
            || (op.AddAgent? && (op.row.id in db.agents || op.row.workspace !in db.workspaces))
            || (op.TrackTask? && (TaskKey(op.agent, op.task) in db.tasks || op.agent !in db.agents))
    ensures !Succeeds(db, op) ==> Apply(db, op) == db
  {}
}
