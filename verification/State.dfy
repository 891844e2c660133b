/** The workspace store: a map from names to workspace states, its mutators and its allocators. */
module State {
  import opened Wrappers
  import opened Allocation

  datatype AgentStatus = Starting | Ready | Busy | Error | Stopping | Stopped

  datatype Agent = Agent(id: string, name: string, status: AgentStatus, port: int, sessionId: Option<string>)

  datatype Workspace = Workspace(
    project: string,
    active: bool,
    tagIndex: int,
    dir: string,
    acpPort: Option<int>,
    acpUrl: Option<string>,
    acpSessionId: Option<string>,
    headless: bool,
    bezalelPort: Option<int>,
    bezalelToken: Option<string>,
    agents: seq<Agent>)

  type Workspaces = map<string, Workspace>

  const TAG_OFFSET: int := 10
  const ACP_PORT_BASE: int := 9100
  const ACP_PORT_MAX: int := 9199
  const BEZALEL_PORT_BASE: int := 9200
  const BEZALEL_PORT_MAX: int := 9299

  function NewWorkspace(project: string): Workspace {
    Workspace(project, false, 0, "", None, None, None, false, None, None, [])
  }

  // ---- mutators, on the map ----

  function WithActive(m: Workspaces, name: string, project: string, tag: int, dir: string,
                      acpPort: Option<int>, acpUrl: Option<string>): Workspaces
  {
    var ws := if name in m then m[name] else NewWorkspace(project);
    m[name := ws.(project := project, active := true, tagIndex := tag, dir := dir,
                  acpPort := acpPort, acpUrl := acpUrl)]
  }

  function WithInactive(m: Workspaces, name: string): Workspaces {
    if name !in m then m
    else m[name := NewWorkspace(m[name].project).(agents := m[name].agents)]
  }

  function WithBezalel(m: Workspaces, name: string, port: Option<int>, token: Option<string>): Workspaces {
    if name !in m then m
    else m[name := m[name].(headless := true, bezalelPort := port, bezalelToken := token)]
  }

  // ---- numbers in use ----

  function Active(m: Workspaces): set<string> { set n | n in m && m[n].active }

  function UsedTags(m: Workspaces): set<int> { set n | n in Active(m) :: m[n].tagIndex }

  function UsedAcpPorts(m: Workspaces): set<int> {
    set n | n in Active(m) && m[n].acpPort.Some? :: m[n].acpPort.value
  }

  function UsedBezalelPorts(m: Workspaces): set<int> {
    set n | n in Active(m) && m[n].bezalelPort.Some? :: m[n].bezalelPort.value
  }

  function AgentPorts(agents: seq<Agent>): set<int> { set a | a in agents :: a.port }

  function UsedAgentPorts(m: Workspaces): set<int> {
    UsedAcpPorts(m) + set n, p | n in Active(m) && p in AgentPorts(m[n].agents) :: p
  }

  // ---- allocators, on the map ----

  function TagFor(m: Workspaces, name: string): int {
    if name in m && m[name].tagIndex > 0 then m[name].tagIndex else FirstFree(UsedTags(m), TAG_OFFSET)
  }

  function AcpPortFor(m: Workspaces, name: string): Option<int> {
    if name in m && m[name].acpPort.Some? then m[name].acpPort
    else PortFrom(UsedAcpPorts(m), ACP_PORT_BASE, ACP_PORT_MAX)
  }

  /** `unavailable` are the ports the operating system will not bind. */
  function BezalelPortFor(m: Workspaces, name: string, unavailable: set<int>): Option<int> {
    if name in m && m[name].bezalelPort.Some? then m[name].bezalelPort
    else PortFrom(UsedBezalelPorts(m) + unavailable, BEZALEL_PORT_BASE, BEZALEL_PORT_MAX)
  }

  function AgentPort(m: Workspaces, unavailable: set<int>): Option<int> {
    PortFrom(UsedAgentPorts(m) + unavailable, ACP_PORT_BASE, ACP_PORT_MAX)
  }

  class Store {
    var workspaces: Workspaces

    constructor ()
      ensures workspaces == map[]
    {
      workspaces := map[];
    }

    method SetActive(name: string, project: string, tagIndex: int, dir: string,
                     acpPort: Option<int>, acpUrl: Option<string>)
      modifies this
      ensures workspaces == WithActive(old(workspaces), name, project, tagIndex, dir, acpPort, acpUrl)
    {
      if name !in workspaces {
        workspaces := workspaces[name := NewWorkspace(project)];
      }
      var ws := workspaces[name];
      ws := ws.(project := project);
      ws := ws.(active := true);
      ws := ws.(tagIndex := tagIndex);
      ws := ws.(dir := dir);
      ws := ws.(acpPort := acpPort);
      ws := ws.(acpUrl := acpUrl);
      workspaces := workspaces[name := ws];
    }

    method SetInactive(name: string)
      modifies this
      ensures workspaces == WithInactive(old(workspaces), name)
    {
      if name in workspaces {
        var ws := workspaces[name];
        ws := ws.(active := false, tagIndex := 0, dir := "");
        ws := ws.(acpPort := None, acpUrl := None, acpSessionId := None);
        ws := ws.(headless := false, bezalelPort := None, bezalelToken := None);
        workspaces := workspaces[name := ws];
      }
    }

    method SetBezalel(name: string, port: Option<int>, token: Option<string>)
      modifies this
      ensures workspaces == WithBezalel(old(workspaces), name, port, token)
    {
      if name in workspaces {
        var ws := workspaces[name];
        workspaces := workspaces[name := ws.(headless := true, bezalelPort := port, bezalelToken := token)];
      }
    }

    method Remove(name: string)
      modifies this
      ensures workspaces == old(workspaces) - {name}
    {
      workspaces := workspaces - {name};
    }

    method AllocateTagIndex(name: string) returns (i: int)
      ensures i == TagFor(workspaces, name)
    {
      if name in workspaces {
        if workspaces[name].tagIndex > 0 {
          return workspaces[name].tagIndex;
        }
      }
      var used := UsedTags(workspaces);
      i := TAG_OFFSET;
      ghost var above := used;
      while i in used
        invariant forall j :: j >= i ==> (j in used <==> j in above)
        invariant FirstFree(above, i) == FirstFree(used, TAG_OFFSET)
        decreases |above|
      {
        above := above - {i};
        i := i + 1;
      }
    }

    method AllocateAcpPort(name: string) returns (r: Option<int>)
      ensures r == AcpPortFor(workspaces, name)
    {
      if name in workspaces {
        if workspaces[name].acpPort.Some? {
          return workspaces[name].acpPort;
        }
      }
      var used := UsedAcpPorts(workspaces);
      var port := ACP_PORT_BASE;
      while port in used && port <= ACP_PORT_MAX
        invariant PortFrom(used, port, ACP_PORT_MAX) == PortFrom(used, ACP_PORT_BASE, ACP_PORT_MAX)
        decreases ACP_PORT_MAX - port
      {
        port := port + 1;
      }
      r := if port > ACP_PORT_MAX then None else Some(port);
    }

    method AllocateBezalelPort(name: string, unavailable: set<int>) returns (r: Option<int>)
      ensures r == BezalelPortFor(workspaces, name, unavailable)
    {
      if name in workspaces {
        if workspaces[name].bezalelPort.Some? {
          return workspaces[name].bezalelPort;
        }
      }
      var used := UsedBezalelPorts(workspaces);
      r := SearchPort(used, unavailable, BEZALEL_PORT_BASE, BEZALEL_PORT_MAX);
    }

    method AllocateAgentPort(unavailable: set<int>) returns (r: Option<int>)
      ensures r == AgentPort(workspaces, unavailable)
    {
      var used := UsedAgentPorts(workspaces);
      r := SearchPort(used, unavailable, ACP_PORT_BASE, ACP_PORT_MAX);
    }
  }

  /** The search loop of every allocator that also asks the operating system. */
  method SearchPort(used: set<int>, unavailable: set<int>, base: int, max: int) returns (r: Option<int>)
    ensures r == PortFrom(used + unavailable, base, max)
  {
    var port := base;
    while port <= max
      invariant PortFrom(used + unavailable, port, max) == PortFrom(used + unavailable, base, max)
      decreases max - port
    {
      if port !in used && port !in unavailable {
        return Some(port);
      }
      port := port + 1;
    }
    return None;
  }

  // ---- what an allocation guarantees ----

  lemma UsedTagsSize(m: Workspaces)
    ensures |UsedTags(m)| <= |Active(m)|
  {
    var f := (n: string) => if n in m then m[n].tagIndex else 0;
    ImageSize(Active(m), f);
    forall i ensures i in UsedTags(m) <==> i in Image(Active(m), f) {
      if i in UsedTags(m) {
        var n :| n in Active(m) && m[n].tagIndex == i;
        assert f(n) == i;
      }
    }
    assert UsedTags(m) == Image(Active(m), f);
  }

  lemma UsedAcpPortsSize(m: Workspaces)
    ensures |UsedAcpPorts(m)| <= |Active(m)|
  {
    var s := set n | n in Active(m) && m[n].acpPort.Some?;
    var f := (n: string) => if n in m && m[n].acpPort.Some? then m[n].acpPort.value else 0;
    ImageSize(s, f);
    forall i ensures i in UsedAcpPorts(m) <==> i in Image(s, f) {
      if i in UsedAcpPorts(m) {
        var n :| n in s && m[n].acpPort.value == i;
        assert f(n) == i;
      }
    }
    assert UsedAcpPorts(m) == Image(s, f);
    SubsetSize(s, Active(m));
  }

  lemma {:induction false} SubsetSize<T>(a: set<T>, b: set<T>)
    requires a <= b
    ensures |a| <= |b|
  {
    if a != {} {
      var x :| x in a;
      SubsetSize(a - {x}, b - {x});
    }
  }

  ghost predicate HoldsTag(m: Workspaces, i: int) {
    exists n :: n in m && m[n].active && m[n].tagIndex == i
  }

  lemma HeldTags(m: Workspaces, i: int)
    ensures i in UsedTags(m) <==> HoldsTag(m, i)
  {
    if n :| n in m && m[n].active && m[n].tagIndex == i {
      assert n in Active(m) && m[n].tagIndex in UsedTags(m);
    }
  }

  /** A tag that is not reused is the least free one, and at most ten plus the number of active workspaces. */
  lemma FreshTag(m: Workspaces, name: string)
    requires name !in m || m[name].tagIndex <= 0
    ensures var i := TagFor(m, name);
            && TAG_OFFSET <= i <= TAG_OFFSET + |Active(m)|
            && !HoldsTag(m, i)
            && forall j :: TAG_OFFSET <= j < i ==> HoldsTag(m, j)
  {
    FirstFreeIsLeast(UsedTags(m), TAG_OFFSET);
    UsedTagsSize(m);
    forall j ensures j in UsedTags(m) <==> HoldsTag(m, j) { HeldTags(m, j); }
  }

  ghost predicate HoldsAcp(m: Workspaces, p: int) {
    exists n :: n in m && m[n].active && m[n].acpPort == Some(p)
  }

  lemma HeldAcpPorts(m: Workspaces, p: int)
    ensures p in UsedAcpPorts(m) <==> HoldsAcp(m, p)
  {
    if n :| n in m && m[n].active && m[n].acpPort == Some(p) {
      assert n in Active(m) && m[n].acpPort.value in UsedAcpPorts(m);
    }
  }

  /** A fresh ACP port is the least one no active workspace holds; there is none exactly when all hundred are held. */
  lemma FreshAcpPort(m: Workspaces, name: string)
    requires name !in m || m[name].acpPort.None?
    ensures match AcpPortFor(m, name)
            case Some(p) =>
              && ACP_PORT_BASE <= p <= ACP_PORT_MAX && !HoldsAcp(m, p)
              && forall j :: ACP_PORT_BASE <= j < p ==> HoldsAcp(m, j)
            case None =>
              && (forall j :: ACP_PORT_BASE <= j <= ACP_PORT_MAX ==> HoldsAcp(m, j))
              && |Active(m)| >= 100
  {
    var used := UsedAcpPorts(m);
    PortFromIsLeast(used, ACP_PORT_BASE, ACP_PORT_MAX);
    forall j ensures j in used <==> HoldsAcp(m, j) { HeldAcpPorts(m, j); }
    if AcpPortFor(m, name).None? {
      NoPortMeansFull(used, ACP_PORT_BASE, ACP_PORT_MAX);
      UsedAcpPortsSize(m);
    }
  }

  ghost predicate HoldsAgentPort(m: Workspaces, p: int) {
    exists n :: n in m && m[n].active && exists a :: a in m[n].agents && a.port == p
  }

  lemma HeldAgentPorts(m: Workspaces, p: int)
    ensures p in UsedAgentPorts(m) <==> HoldsAcp(m, p) || HoldsAgentPort(m, p)
  {
    HeldAcpPorts(m, p);
    if HoldsAgentPort(m, p) {
      var n :| n in m && m[n].active && exists a :: a in m[n].agents && a.port == p;
      assert n in Active(m) && p in AgentPorts(m[n].agents);
    }
  }

  ghost predicate Taken(m: Workspaces, unavailable: set<int>, p: int) {
    p in unavailable || HoldsAcp(m, p) || HoldsAgentPort(m, p)
  }

  /** An agent port is the least one that is available and held neither as an ACP port nor by an agent. */
  lemma FreshAgentPort(m: Workspaces, unavailable: set<int>)
    ensures match AgentPort(m, unavailable)
            case Some(p) =>
              && ACP_PORT_BASE <= p <= ACP_PORT_MAX && !Taken(m, unavailable, p)
              && forall j :: ACP_PORT_BASE <= j < p ==> Taken(m, unavailable, j)
            case None => forall j :: ACP_PORT_BASE <= j <= ACP_PORT_MAX ==> Taken(m, unavailable, j)
  {
    var blocked := UsedAgentPorts(m) + unavailable;
    PortFromIsLeast(blocked, ACP_PORT_BASE, ACP_PORT_MAX);
    forall j ensures j in blocked <==> Taken(m, unavailable, j) { HeldAgentPorts(m, j); }
  }

  ghost predicate HoldsBezalel(m: Workspaces, p: int) {
    exists n :: n in m && m[n].active && m[n].bezalelPort == Some(p)
  }

  lemma HeldBezalelPorts(m: Workspaces, p: int)
    ensures p in UsedBezalelPorts(m) <==> HoldsBezalel(m, p)
  {
    if n :| n in m && m[n].active && m[n].bezalelPort == Some(p) {
      assert n in Active(m) && m[n].bezalelPort.value in UsedBezalelPorts(m);
    }
  }

  ghost predicate BezalelTaken(m: Workspaces, unavailable: set<int>, p: int) {
    p in unavailable || HoldsBezalel(m, p)
  }

  lemma FreshBezalelPort(m: Workspaces, name: string, unavailable: set<int>)
    requires name !in m || m[name].bezalelPort.None?
    ensures match BezalelPortFor(m, name, unavailable)
            case Some(p) =>
              && BEZALEL_PORT_BASE <= p <= BEZALEL_PORT_MAX && !BezalelTaken(m, unavailable, p)
              && forall j :: BEZALEL_PORT_BASE <= j < p ==> BezalelTaken(m, unavailable, j)
            case None => forall j :: BEZALEL_PORT_BASE <= j <= BEZALEL_PORT_MAX ==> BezalelTaken(m, unavailable, j)
  {
    var blocked := UsedBezalelPorts(m) + unavailable;
    PortFromIsLeast(blocked, BEZALEL_PORT_BASE, BEZALEL_PORT_MAX);
    forall j ensures j in blocked <==> BezalelTaken(m, unavailable, j) { HeldBezalelPorts(m, j); }
  }
}
