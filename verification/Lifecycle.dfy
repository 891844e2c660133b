/**
  Workspace lifecycle: bringing up, provisioning, taking down and destroying compose the store's
  allocators and mutators in a fixed order. Worktrees, tags, apps, resolving and saving are outcomes
  handed in; a save that fails leaves the file as it was, while the manager in memory goes on.
*/
module Lifecycle {
  import opened Wrappers
  import opened State

  function Provision(m: Workspaces, name: string, unavailable: set<int>, freshToken: string): Workspaces {
    match BezalelPortFor(m, name, unavailable)
    case None => m
    case Some(port) =>
      var token := if name in m && m[name].bezalelToken.Some? then m[name].bezalelToken.value else freshToken;
      WithBezalel(m, name, Some(port), Some(token))
  }

  datatype UpRequest = UpRequest(
    name: string, project: string, dir: string, headless: bool,
    acpUrl: Option<string>, unavailable: set<int>, freshToken: string)

  function BroughtUp(m: Workspaces, q: UpRequest): Workspaces {
    var m1 := WithActive(m, q.name, q.project, TagFor(m, q.name), q.dir, AcpPortFor(m, q.name), q.acpUrl);
    if q.headless then Provision(m1, q.name, q.unavailable, q.freshToken) else m1
  }

  function WithAcpPort(m: Workspaces, name: string, port: int, url: string): Workspaces {
    if name !in m then m
    else
      var ws := m[name];
      m[name := ws.(acpPort := Some(port), acpUrl := if ws.acpUrl.None? then Some(url) else ws.acpUrl)]
  }

  class Manager {
    const state: Store
    var disk: Workspaces

    constructor (store: Store, saved: Workspaces)
      ensures state == store && disk == saved
    {
      state, disk := store, saved;
    }

    method Save(ok: bool) returns (saved: bool)
      modifies this
      ensures saved == ok && disk == if ok then state.workspaces else old(disk)
    {
      if ok {
        disk := state.workspaces;
      }
      return ok;
    }

    method Up(q: UpRequest, worktreeOk: bool, saveOk: bool) returns (ok: bool)
      modifies this, state
      ensures ok == (worktreeOk && saveOk)
      ensures state.workspaces == if worktreeOk then BroughtUp(old(state.workspaces), q) else old(state.workspaces)
      ensures disk == if ok then state.workspaces else old(disk)
    {
      if !worktreeOk {
        return false;
      }
      var tagIndex := state.AllocateTagIndex(q.name);
      var acpPort := state.AllocateAcpPort(q.name);
      state.SetActive(q.name, q.project, tagIndex, q.dir, acpPort, q.acpUrl);
      if q.headless {
        var _ := ProvisionBezalel(q.name, q.unavailable, q.freshToken);
      }
      ok := Save(saveOk);
    }

    method ProvisionBezalel(name: string, unavailable: set<int>, freshToken: string) returns (r: Option<(int, string)>)
      modifies state
      ensures state.workspaces == Provision(old(state.workspaces), name, unavailable, freshToken)
      ensures r.None? <==> BezalelPortFor(old(state.workspaces), name, unavailable).None?
      ensures r.Some? && name in state.workspaces ==>
                && state.workspaces[name].bezalelPort == Some(r.value.0)
                && state.workspaces[name].bezalelToken == Some(r.value.1)
    {
      var port := state.AllocateBezalelPort(name, unavailable);
      if port.None? {
        return None;
      }
      var token := freshToken;
      if name in state.workspaces && state.workspaces[name].bezalelToken.Some? {
        token := state.workspaces[name].bezalelToken.value;
      }
      state.SetBezalel(name, port, Some(token));
      return Some((port.value, token));
    }

    method Down(name: string, saveOk: bool, cleanupOk: bool) returns (ok: bool)
      modifies this, state
      ensures ok == (saveOk && cleanupOk)
      ensures state.workspaces == WithInactive(old(state.workspaces), name)
      ensures disk == if saveOk then state.workspaces else old(disk)
    {
      state.SetInactive(name);
      var saved := Save(saveOk);
      return saved && cleanupOk;
    }

    method Destroy(name: string, saveDownOk: bool, cleanupOk: bool, saveOk: bool) returns (ok: bool)
      modifies this, state
      ensures ok == (saveDownOk && cleanupOk && saveOk)
      ensures state.workspaces == old(state.workspaces) - {name}
      ensures disk == if saveOk then state.workspaces
                      else if saveDownOk then WithInactive(old(state.workspaces), name) else old(disk)
    {
      var downOk := Down(name, saveDownOk, cleanupOk);
      state.Remove(name);
      var saved := Save(saveOk);
      return downOk && saved;
    }

    /** The ACP supervisor's own write, made to the file each time it has spawned a child. */
    method AcpWrite(name: string, port: int, url: string, saveOk: bool)
      modifies this
      ensures disk == if saveOk then WithAcpPort(old(disk), name, port, url) else old(disk)
    {
      var store := disk;
      if name in store {
        var ws := store[name].(acpPort := Some(port));
        if ws.acpUrl.None? {
          ws := ws.(acpUrl := Some(url));
        }
        store := store[name := ws];
      }
      if saveOk {
        disk := store;
      }
    }

    /** A request handler brings a workspace up in a store it loads for itself. */
    method ServeUp(q: UpRequest, saveOk: bool)
      modifies this
      ensures disk == if saveOk then BroughtUp(old(disk), q) else old(disk)
    {
      var store := new Store();
      store.workspaces := disk;
      var handler := new Manager(store, disk);
      var _ := handler.Up(q, true, saveOk);
      disk := handler.disk;
    }

    method ServeRemove(name: string, saveOk: bool)
      modifies this
      ensures disk == if saveOk then old(disk) - {name} else old(disk)
    {
      var store := new Store();
      store.workspaces := disk;
      store.Remove(name);
      if saveOk {
        disk := store.workspaces;
      }
    }

    method Perform(op: Op)
      modifies this, state
      ensures Stores(state.workspaces, disk) == Apply(old(Stores(state.workspaces, disk)), op)
    {
      match op
      case Load => state.workspaces := disk;
      case Up(q, worktreeOk, saveOk) => var _ := Up(q, worktreeOk, saveOk);
      case ProvisionAgain(name, unavailable, freshToken, saveOk) =>
        var _ := ProvisionBezalel(name, unavailable, freshToken);
        var _ := Save(saveOk);
      case Down(name, saveOk, cleanupOk) => var _ := Down(name, saveOk, cleanupOk);
      case Destroy(name, saveDownOk, cleanupOk, saveOk) => var _ := Destroy(name, saveDownOk, cleanupOk, saveOk);
      case AcpWrite(name, port, url, saveOk) => AcpWrite(name, port, url, saveOk);
      case ServeUp(q, saveOk) => ServeUp(q, saveOk);
      case ServeRemove(name, saveOk) => ServeRemove(name, saveOk);
    }

    /**
      A manager that starts from an empty store goes through any run of operations as `Run` does, and keeps
      numbers apart.
    */
    method Replay(ops: seq<Op>)
      requires state.workspaces == disk == map[] && EnabledRun(Stores(map[], map[]), ops)
      modifies this, state
      ensures Stores(state.workspaces, disk) == Run(Stores(map[], map[]), ops)
      ensures Inv(state.workspaces) && Inv(disk)
    {
      for i := 0 to |ops|
        invariant Run(Stores(state.workspaces, disk), ops[i..]) == Run(Stores(map[], map[]), ops)
      {
        assert ops[i..][0] == ops[i] && ops[i..][1..] == ops[i + 1..];
        Perform(ops[i]);
      }
      NumbersStayApart(ops);
    }
  }

  // ---- what every run of these operations keeps ----

  ghost predicate EntryOk(ws: Workspace) {
    if ws.active then
      && ws.tagIndex >= TAG_OFFSET
      && (ws.acpPort.Some? ==> ACP_PORT_BASE <= ws.acpPort.value <= ACP_PORT_MAX)
      && (ws.bezalelPort.Some? ==> BEZALEL_PORT_BASE <= ws.bezalelPort.value <= BEZALEL_PORT_MAX)
    else ws.tagIndex == 0 && ws.acpPort.None? && ws.bezalelPort.None?
  }

  /** Two active workspaces share no number. */
  ghost predicate Apart(a: Workspace, b: Workspace) {
    && a.tagIndex != b.tagIndex
    && (a.acpPort.Some? ==> a.acpPort != b.acpPort)
    && (a.bezalelPort.Some? ==> a.bezalelPort != b.bezalelPort)
  }

  ghost predicate Inv(m: Workspaces) {
    && (forall n :: n in m ==> EntryOk(m[n]))
    && (forall n, k :: n in m && k in m && n != k && m[n].active && m[k].active ==> Apart(m[n], m[k]))
  }

  lemma TagApart(m: Workspaces, name: string)
    requires Inv(m)
    ensures TagFor(m, name) >= TAG_OFFSET
    ensures forall k :: k in m && k != name && m[k].active ==> m[k].tagIndex != TagFor(m, name)
  {
    if name !in m || m[name].tagIndex <= 0 {
      FreshTag(m, name);
    } else {
      assert EntryOk(m[name]);
      assert forall k :: k in m && k != name && m[k].active ==> Apart(m[name], m[k]);
    }
  }

  lemma AcpPortApart(m: Workspaces, name: string)
    requires Inv(m) && AcpPortFor(m, name).Some?
    ensures ACP_PORT_BASE <= AcpPortFor(m, name).value <= ACP_PORT_MAX
    ensures forall k :: k in m && k != name && m[k].active ==> m[k].acpPort != AcpPortFor(m, name)
  {
    if name !in m || m[name].acpPort.None? {
      FreshAcpPort(m, name);
    } else {
      assert EntryOk(m[name]);
      assert forall k :: k in m && k != name && m[k].active ==> Apart(m[name], m[k]);
    }
  }

  lemma ActivatedIsApart(m: Workspaces, name: string, project: string, dir: string, acpUrl: Option<string>, k: string)
    requires Inv(m) && k in m && k != name && m[k].active
    ensures var ws := WithActive(m, name, project, TagFor(m, name), dir, AcpPortFor(m, name), acpUrl)[name];
            Apart(ws, m[k]) && Apart(m[k], ws)
  {
    TagApart(m, name);
    if AcpPortFor(m, name).Some? { AcpPortApart(m, name); }
    if name in m { assert EntryOk(m[name]); }
  }

  lemma ActivationKeepsInv(m: Workspaces, name: string, project: string, dir: string, acpUrl: Option<string>)
    requires Inv(m)
    ensures Inv(WithActive(m, name, project, TagFor(m, name), dir, AcpPortFor(m, name), acpUrl))
  {
    var m' := WithActive(m, name, project, TagFor(m, name), dir, AcpPortFor(m, name), acpUrl);
    TagApart(m, name);
    if AcpPortFor(m, name).Some? { AcpPortApart(m, name); }
    assert EntryOk(m'[name]);
    forall k | k in m && k != name && m[k].active ensures Apart(m'[name], m'[k]) && Apart(m'[k], m'[name]) {
      ActivatedIsApart(m, name, project, dir, acpUrl, k);
    }
  }

  /** Provisioning keeps the invariant exactly for a workspace that is unknown or active, or when there is no port. */
  lemma ProvisionKeepsInv(m: Workspaces, name: string, unavailable: set<int>, freshToken: string)
    requires Inv(m)
    ensures Inv(Provision(m, name, unavailable, freshToken)) <==>
            name !in m || m[name].active || BezalelPortFor(m, name, unavailable).None?
  {
    var m' := Provision(m, name, unavailable, freshToken);
    if name !in m || m[name].bezalelPort.None? { FreshBezalelPort(m, name, unavailable); }
    if name in m && !m[name].active && BezalelPortFor(m, name, unavailable).Some? {
      assert !EntryOk(m'[name]);
    }
  }

  lemma DeactivationKeepsInv(m: Workspaces, name: string)
    requires Inv(m)
    ensures Inv(WithInactive(m, name)) && Inv(m - {name})
  {}

  lemma UpKeepsInv(m: Workspaces, q: UpRequest)
    requires Inv(m)
    ensures Inv(BroughtUp(m, q))
    ensures q.name in BroughtUp(m, q) && BroughtUp(m, q)[q.name].active
  {
    ActivationKeepsInv(m, q.name, q.project, q.dir, q.acpUrl);
    var m1 := WithActive(m, q.name, q.project, TagFor(m, q.name), q.dir, AcpPortFor(m, q.name), q.acpUrl);
    ProvisionKeepsInv(m1, q.name, q.unavailable, q.freshToken);
  }

  // ---- what a workspace gets, keeps and forgets ----

  /** The entry before, or a blank one. */
  function Before(m: Workspaces, name: string): Workspace {
    if name in m then m[name] else Workspace("", false, 0, "", None, None, None, false, None, None, [])
  }

  /**
    Bringing up makes the workspace active with the project, directory and URL asked for. It keeps the tag and the
    port it had, its agents and its session, and every other workspace as it was.
  */
  lemma UpIsAsAsked(m: Workspaces, q: UpRequest)
    ensures var m', was := BroughtUp(m, q), Before(m, q.name);
            && m'.Keys == m.Keys + {q.name} && (forall k :: k in m && k != q.name ==> m'[k] == m[k])
            && m'[q.name].active && m'[q.name].project == q.project && m'[q.name].dir == q.dir
            && m'[q.name].acpUrl == q.acpUrl
            && m'[q.name].agents == was.agents && m'[q.name].acpSessionId == was.acpSessionId
            && (was.tagIndex > 0 ==> m'[q.name].tagIndex == was.tagIndex)
            && (was.acpPort.Some? ==> m'[q.name].acpPort == was.acpPort)
  {}

  /**
    A headless request gives a bezalel port and a token, those it had or new ones; any other leaves them as
    they were.
  */
  lemma HeadlessGetsBezalel(m: Workspaces, q: UpRequest)
    ensures var ws, was := BroughtUp(m, q)[q.name], Before(m, q.name);
            && (!q.headless ==> ws.headless == was.headless && ws.bezalelPort == was.bezalelPort
                                && ws.bezalelToken == was.bezalelToken)
            && (q.headless && (was.bezalelPort.Some? || HasFreeBezalel(m, q.unavailable, q.name)) ==>
                  && ws.headless && ws.bezalelPort.Some?
                  && (was.bezalelPort.Some? ==> ws.bezalelPort == was.bezalelPort)
                  && ws.bezalelToken == Some(if was.bezalelToken.Some? then was.bezalelToken.value else q.freshToken))
  {
    var m1 := WithActive(m, q.name, q.project, TagFor(m, q.name), q.dir, AcpPortFor(m, q.name), q.acpUrl);
    if q.headless && Before(m, q.name).bezalelPort.None? {
      FreshBezalelPort(m1, q.name, q.unavailable);
      if p :| BEZALEL_PORT_BASE <= p <= BEZALEL_PORT_MAX && FreeBezalel(m, q.unavailable, q.name, p) {
        assert !BezalelTaken(m1, q.unavailable, p);
      }
    }
  }

  /** The port is available and no other active workspace holds it. */
  ghost predicate FreeBezalel(m: Workspaces, unavailable: set<int>, name: string, p: int) {
    p !in unavailable && forall k :: k in m && k != name && m[k].active ==> m[k].bezalelPort != Some(p)
  }

  ghost predicate HasFreeBezalel(m: Workspaces, unavailable: set<int>, name: string) {
    exists p :: BEZALEL_PORT_BASE <= p <= BEZALEL_PORT_MAX && FreeBezalel(m, unavailable, name, p)
  }

  /** A workspace taken down is inactive, keeps its project and agents, and leaves the others alone. */
  lemma DownKeepsLittle(m: Workspaces, name: string)
    requires name in m
    ensures var m' := WithInactive(m, name);
            && m'.Keys == m.Keys && (forall k :: k in m && k != name ==> m'[k] == m[k])
            && m'[name] == Workspace(m[name].project, false, 0, "", None, None, None, false, None, None, m[name].agents)
  {}

  /** Brought up again after that, it is as if it had never been there, but for its agents. */
  lemma DownForgets(m: Workspaces, q: UpRequest)
    requires q.name in m
    ensures var anew := BroughtUp(m - {q.name}, q);
            BroughtUp(WithInactive(m, q.name), q) == WithAgents(anew, q.name, m[q.name].agents)
  {
    var down, gone, agents := WithInactive(m, q.name), m - {q.name}, m[q.name].agents;
    SameNumbers(down, gone);
    var up := WithActive(gone, q.name, q.project, TagFor(gone, q.name), q.dir, AcpPortFor(gone, q.name), q.acpUrl);
    assert WithActive(down, q.name, q.project, TagFor(down, q.name), q.dir, AcpPortFor(down, q.name), q.acpUrl)
           == WithAgents(up, q.name, agents);
    ProvisionIgnoresAgents(up, q.name, agents, q.unavailable, q.freshToken);
  }

  function WithAgents(m: Workspaces, name: string, agents: seq<Agent>): Workspaces
    requires name in m
  {
    m[name := m[name].(agents := agents)]
  }

  lemma ProvisionIgnoresAgents(m: Workspaces, name: string, agents: seq<Agent>, unavailable: set<int>, token: string)
    requires name in m
    ensures Provision(WithAgents(m, name, agents), name, unavailable, token)
            == WithAgents(Provision(m, name, unavailable, token), name, agents)
  {
    SameNumbers(WithAgents(m, name, agents), m);
  }

  /** Active workspaces that differ in their agents alone hold the same numbers. */
  lemma SameNumbers(m: Workspaces, m': Workspaces)
    requires Active(m) == Active(m')
    requires forall k :: k in Active(m) ==> m[k].(agents := []) == m'[k].(agents := [])
    ensures UsedTags(m) == UsedTags(m') && UsedAcpPorts(m) == UsedAcpPorts(m')
    ensures UsedBezalelPorts(m) == UsedBezalelPorts(m')
  {
    forall k | k in Active(m)
      ensures m[k].tagIndex == m'[k].tagIndex && m[k].acpPort == m'[k].acpPort && m[k].bezalelPort == m'[k].bezalelPort
    {
      assert m[k].(agents := []).tagIndex == m'[k].(agents := []).tagIndex;
      assert m[k].(agents := []).acpPort == m'[k].(agents := []).acpPort;
      assert m[k].(agents := []).bezalelPort == m'[k].(agents := []).bezalelPort;
    }
  }

  /** The store a manager holds and the one on disk. */
  datatype Stores = Stores(memory: Workspaces, disk: Workspaces)

  datatype Op =
    | Load
    | Up(q: UpRequest, worktreeOk: bool, saveOk: bool)
    | ProvisionAgain(name: string, unavailable: set<int>, freshToken: string, saveOk: bool)
    | Down(name: string, saveOk: bool, cleanupOk: bool)
    | Destroy(name: string, saveDownOk: bool, cleanupOk: bool, saveOk: bool)
    | AcpWrite(name: string, port: int, url: string, saveOk: bool)
    | ServeUp(q: UpRequest, saveOk: bool)
    | ServeRemove(name: string, saveOk: bool)

  function Saved(s: Stores, ok: bool): Stores { if ok then s.(disk := s.memory) else s }

  function Apply(s: Stores, op: Op): Stores {
    match op
    case Load => s.(memory := s.disk)
    case Up(q, worktreeOk, saveOk) => if worktreeOk then Saved(s.(memory := BroughtUp(s.memory, q)), saveOk) else s
    case ProvisionAgain(name, unavailable, token, ok) =>
      Saved(s.(memory := Provision(s.memory, name, unavailable, token)), ok)
    case Down(name, ok, _) => Saved(s.(memory := WithInactive(s.memory, name)), ok)
    case Destroy(name, downOk, _, ok) =>
      var s1 := Saved(s.(memory := WithInactive(s.memory, name)), downOk);
      Saved(s1.(memory := s1.memory - {name}), ok)
    case AcpWrite(name, port, url, ok) => if ok then s.(disk := WithAcpPort(s.disk, name, port, url)) else s
    case ServeUp(q, ok) => if ok then s.(disk := BroughtUp(s.disk, q)) else s
    case ServeRemove(name, ok) => if ok then s.(disk := s.disk - {name}) else s
  }

  /** The operation wrote the manager's store to disk, at its end. */
  predicate Writes(op: Op) {
    match op
    case Up(_, worktreeOk, saveOk) => worktreeOk && saveOk
    case ProvisionAgain(_, _, _, saveOk) => saveOk
    case Down(_, saveOk, _) => saveOk
    case Destroy(_, _, _, saveOk) => saveOk
    case _ => false
  }

  /** What each operation achieves in memory, whatever it manages to save. */
  lemma EffectInMemory(s: Stores, op: Op)
    ensures var m := Apply(s, op).memory;
            && (op.Up? && op.worktreeOk ==> op.q.name in m && m[op.q.name].active)
            && (op.Up? && !op.worktreeOk ==> Apply(s, op) == s)
            && (op.Down? ==> m.Keys == s.memory.Keys && (op.name in m ==> !m[op.name].active))
            && (op.Destroy? ==> m == s.memory - {op.name})
            && (op.ProvisionAgain? && op.name in s.memory && BezalelPortFor(s.memory, op.name, op.unavailable).Some? ==>
                  m[op.name].headless && m[op.name].bezalelPort.Some? && m[op.name].bezalelToken.Some?)
            && (op.ProvisionAgain? ==> forall k :: k in s.memory && k != op.name ==> k in m && m[k] == s.memory[k])
            && (op.Load? ==> m == s.disk && Apply(s, op).disk == s.disk)
            && (op.ServeUp? || op.ServeRemove? || op.AcpWrite? ==> m == s.memory)
  {
    if op.Up? { UpIsAsAsked(s.memory, op.q); }
  }

  /** What reaches the disk: the store in memory when it was saved, else what was there, or half of a destruction. */
  lemma EffectOnDisk(s: Stores, op: Op)
    ensures var s' := Apply(s, op);
            && (Writes(op) ==> s'.disk == s'.memory)
            && ((op.Up? || op.ProvisionAgain? || op.Down?) && !Writes(op) ==> s'.disk == s.disk)
            && (op.Destroy? && !op.saveOk ==>
                  if op.saveDownOk then op.name in s.memory ==> op.name in s'.disk && !s'.disk[op.name].active
                  else s'.disk == s.disk)
            && (op.ServeUp? && op.saveOk ==> op.q.name in s'.disk && s'.disk[op.q.name].active)
            && (op.ServeRemove? && op.saveOk ==> s'.disk == s.disk - {op.name})
            && (op.AcpWrite? && op.saveOk && op.name in s.disk ==> s'.disk[op.name].acpPort == Some(op.port))
            && ((op.ServeUp? || op.ServeRemove? || op.AcpWrite?) && !op.saveOk ==> s'.disk == s.disk)
  {
    if op.ServeUp? { UpIsAsAsked(s.disk, op.q); }
  }

  /** A workspace is provisioned on its own only while it is up, and the supervisor writes only what fits. */
  predicate Enabled(s: Stores, op: Op) {
    && (op.ProvisionAgain? && op.name in s.memory ==> s.memory[op.name].active)
    && (op.AcpWrite? ==> AcpWriteFits(s.disk, op.name, op.port))
  }

  predicate EnabledRun(s: Stores, ops: seq<Op>)
    decreases |ops|
  {
    ops == [] || (Enabled(s, ops[0]) && EnabledRun(Apply(s, ops[0]), ops[1..]))
  }

  function Run(s: Stores, ops: seq<Op>): Stores
    decreases |ops|
  {
    if ops == [] then s else Run(Apply(s, ops[0]), ops[1..])
  }

  lemma StepKeepsInv(s: Stores, op: Op)
    requires Inv(s.memory) && Inv(s.disk) && Enabled(s, op)
    ensures Inv(Apply(s, op).memory) && Inv(Apply(s, op).disk)
  {
    match op
    case Load =>
    case Up(q, _, _) => UpKeepsInv(s.memory, q);
    case ProvisionAgain(name, unavailable, token, _) => ProvisionKeepsInv(s.memory, name, unavailable, token);
    case Down(name, _, _) => DeactivationKeepsInv(s.memory, name);
    case Destroy(name, _, _, _) =>
      DeactivationKeepsInv(s.memory, name);
      DeactivationKeepsInv(WithInactive(s.memory, name), name);
    case AcpWrite(name, port, url, _) => AcpWriteKeepsInv(s.disk, name, port, url);
    case ServeUp(q, _) => UpKeepsInv(s.disk, q);
    case ServeRemove(name, _) => DeactivationKeepsInv(s.disk, name);
  }

  lemma {:induction false} RunKeepsInv(s: Stores, ops: seq<Op>)
    requires Inv(s.memory) && Inv(s.disk) && EnabledRun(s, ops)
    ensures Inv(Run(s, ops).memory) && Inv(Run(s, ops).disk)
    decreases |ops|
  {
    if ops != [] {
      StepKeepsInv(s, ops[0]);
      RunKeepsInv(Apply(s, ops[0]), ops[1..]);
    }
  }

  /** From an empty store, whatever fails on the way, no two active workspaces ever share a tag or a port. */
  lemma NumbersStayApart(ops: seq<Op>)
    requires EnabledRun(Stores(map[], map[]), ops)
    ensures Inv(Run(Stores(map[], map[]), ops).memory) && Inv(Run(Stores(map[], map[]), ops).disk)
  {
    RunKeepsInv(Stores(map[], map[]), ops);
  }

  /** In numbers: so no ACP port is ever a bezalel port either. */
  lemma NumbersAreInRange(ops: seq<Op>, n: string)
    requires EnabledRun(Stores(map[], map[]), ops) && n in Run(Stores(map[], map[]), ops).memory
    ensures var ws := Run(Stores(map[], map[]), ops).memory[n];
            && (ws.active ==>
                  && ws.tagIndex >= 10
                  && (ws.acpPort.Some? ==> 9100 <= ws.acpPort.value <= 9199)
                  && (ws.bezalelPort.Some? ==> 9200 <= ws.bezalelPort.value <= 9299))
            && (!ws.active ==> ws.tagIndex == 0 && ws.acpPort.None? && ws.bezalelPort.None?)
  {
    NumbersStayApart(ops);
    assert EntryOk(Run(Stores(map[], map[]), ops).memory[n]);
  }

  /** The first workspace gets the first of each. */
  lemma FirstNumbers(q: UpRequest)
    ensures var ws := BroughtUp(map[], q)[q.name];
            && ws.tagIndex == 10 && ws.acpPort == Some(9100)
            && (q.headless && 9200 !in q.unavailable ==> ws.bezalelPort == Some(9200))
  {
    var m1 := WithActive(map[], q.name, q.project, TagFor(map[], q.name), q.dir, AcpPortFor(map[], q.name), q.acpUrl);
    assert UsedTags(map[]) == {} && UsedAcpPorts(map[]) == {} && UsedBezalelPorts(m1) == {};
  }

  // ---- the ACP supervisor also writes the store, each time a child has been spawned ----

  /** The workspace is gone, or still up with the port in range and to itself. */
  predicate AcpWriteFits(m: Workspaces, name: string, port: int) {
    name in m ==>
      && m[name].active && ACP_PORT_BASE <= port <= ACP_PORT_MAX
      && forall k :: k in m && k != name && m[k].active ==> m[k].acpPort != Some(port)
  }

  /** So it is as long as the workspace still holds the port its process was started on. */
  lemma OwnPortFits(m: Workspaces, name: string, port: int)
    requires Inv(m) && name in m && m[name].acpPort == Some(port)
    ensures AcpWriteFits(m, name, port)
  {
    assert EntryOk(m[name]);
    assert forall k :: k in m && k != name && m[k].active ==> Apart(m[name], m[k]);
  }

  /** The write keeps the invariant exactly when it fits. */
  lemma AcpWriteKeepsInv(m: Workspaces, name: string, port: int, url: string)
    requires Inv(m)
    ensures Inv(WithAcpPort(m, name, port, url)) <==> AcpWriteFits(m, name, port)
  {
    var m' := WithAcpPort(m, name, port, url);
    if name in m {
      if !(m[name].active && ACP_PORT_BASE <= port <= ACP_PORT_MAX) {
        assert !EntryOk(m'[name]);
      } else if k :| k in m && k != name && m[k].active && m[k].acpPort == Some(port) {
        assert !Apart(m'[name], m'[k]);
      }
    }
  }

  /** The write touches one entry's port and, if it had none, its URL. */
  lemma AcpWriteTouchesLittle(m: Workspaces, name: string, port: int, url: string)
    ensures var m' := WithAcpPort(m, name, port, url);
            && m'.Keys == m.Keys && (forall k :: k in m && k != name ==> m'[k] == m[k])
            && (name in m ==>
                  && m'[name].acpPort == Some(port)
                  && (m[name].acpUrl.Some? ==> m'[name].acpUrl == m[name].acpUrl)
                  && (m[name].acpUrl.None? ==> m'[name].acpUrl == Some(url))
                  && m'[name].(acpPort := None, acpUrl := None) == m[name].(acpPort := None, acpUrl := None))
  {}

  /** A child spawned just after its workspace went down leads to two active workspaces on one port. */
  lemma LateAcpWriteDuplicatesPort(a: UpRequest, b: UpRequest, url: string)
    requires a.name != b.name
    ensures var m1 := WithInactive(BroughtUp(map[], a), a.name);
            var m2 := WithAcpPort(m1, a.name, ACP_PORT_BASE, url);
            var m3 := BroughtUp(BroughtUp(m2, b), a);
            && m3[a.name].active && m3[b.name].active
            && m3[a.name].acpPort == m3[b.name].acpPort == Some(ACP_PORT_BASE)
  {
    var m2 := WithAcpPort(WithInactive(BroughtUp(map[], a), a.name), a.name, ACP_PORT_BASE, url);
    assert forall p :: !HoldsAcp(m2, p);
    FreshAcpPort(m2, b.name);
  }
}
