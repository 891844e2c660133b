/**
  Finding an agent by identifier, twice: a fold over the in-memory store, whose outer map is visited in
  whatever order its hash table gives, and an ordered query over the agents table.
*/
module AgentResolution {
  import opened Wrappers
  import opened State
  import ArpStore

  predicate Live(a: Agent) { !a.status.Stopped? && !a.status.Stopping? }

  predicate Matches(a: Agent, name: string) { a.name == name && Live(a) }

  // ---- in memory ----

  datatype Found = Found(ws: string, agent: Agent)

  /** Does `a`, seen next, take the place of the best candidate so far? */
  predicate Replaces(a: Agent, best: Option<Found>) {
    best.None? || (a.status.Ready? && !best.value.agent.status.Ready?)
  }

  function FoldAgents(best: Option<Found>, ws: string, agents: seq<Agent>, name: string): Option<Found>
    decreases |agents|
  {
    if agents == [] then best
    else
      var a := agents[0];
      FoldAgents(if Matches(a, name) && Replaces(a, best) then Some(Found(ws, a)) else best, ws, agents[1..], name)
  }

  function FoldStore(best: Option<Found>, m: Workspaces, order: seq<string>, name: string): Option<Found>
    requires forall n :: n in order ==> n in m
    decreases |order|
  {
    if order == [] then best
    else FoldStore(FoldAgents(best, order[0], m[order[0]].agents, name), m, order[1..], name)
  }

  /** An order a hash map may be visited in: every key once. */
  ghost predicate HashOrder(order: seq<string>, m: Workspaces) {
    && (forall n :: n in order <==> n in m)
    && (forall i, j :: 0 <= i < j < |order| ==> order[i] != order[j])
  }

  function AgentAt(agents: seq<Agent>, id: string): Option<Agent> {
    if agents == [] then None else if agents[0].id == id then Some(agents[0]) else AgentAt(agents[1..], id)
  }

  function IdIn(m: Workspaces, order: seq<string>, id: string): Option<Found>
    requires forall n :: n in order ==> n in m
  {
    if order == [] then None
    else match AgentAt(m[order[0]].agents, id)
      case Some(a) => Some(Found(order[0], a))
      case None => IdIn(m, order[1..], id)
  }

  method FindAgent(m: Workspaces, order: seq<string>, id: string) returns (r: Option<Found>)
    requires forall n :: n in order ==> n in m
    ensures r == IdIn(m, order, id)
  {
    for i := 0 to |order|
      invariant IdIn(m, order[i..], id) == IdIn(m, order, id)
    {
      var agents := m[order[i]].agents;
      assert order[i..][1..] == order[i + 1..];
      for j := 0 to |agents|
        invariant AgentAt(agents[j..], id) == AgentAt(agents, id)
      {
        assert agents[j..][1..] == agents[j + 1..];
        if agents[j].id == id {
          return Some(Found(order[i], agents[j]));
        }
      }
    }
    return None;
  }

  method FindAgentByName(m: Workspaces, order: seq<string>, name: string) returns (best: Option<Found>)
    requires forall n :: n in order ==> n in m
    ensures best == FoldStore(None, m, order, name)
  {
    best := None;
    for i := 0 to |order|
      invariant FoldStore(best, m, order[i..], name) == FoldStore(None, m, order, name)
    {
      var agents := m[order[i]].agents;
      assert order[i..][1..] == order[i + 1..];
      ghost var target := FoldAgents(best, order[i], agents, name);
      for j := 0 to |agents|
        invariant FoldAgents(best, order[i], agents[j..], name) == target
      {
        assert agents[j..][1..] == agents[j + 1..];
        var a := agents[j];
        if a.name != name {
          continue;
        }
        if a.status.Stopped? || a.status.Stopping? {
          continue;
        }
        match best
        case None => best := Some(Found(order[i], a));
        case Some(existing) =>
          if a.status.Ready? && !existing.agent.status.Ready? {
            best := Some(Found(order[i], a));
          }
      }
    }
  }

  /** What the fold finds inside one workspace. */
  function LocalPick(m: Workspaces, ws: string, name: string): Option<Found> {
    if ws in m then FoldAgents(None, ws, m[ws].agents, name) else None
  }

  method FindAgentByWsName(m: Workspaces, ws: string, name: string) returns (best: Option<Found>)
    ensures best == LocalPick(m, ws, name)
  {
    best := None;
    if ws !in m {
      return;
    }
    var agents := m[ws].agents;
    for j := 0 to |agents|
      invariant FoldAgents(best, ws, agents[j..], name) == FoldAgents(None, ws, agents, name)
    {
      assert agents[j..][1..] == agents[j + 1..];
      var a := agents[j];
      if a.name != name {
        continue;
      }
      if a.status.Stopped? || a.status.Stopping? {
        continue;
      }
      match best
      case None => best := Some(Found(ws, a));
      case Some(existing) =>
        if a.status.Ready? && !existing.agent.status.Ready? {
          best := Some(Found(ws, a));
        }
    }
  }

  /** The position of the first slash. */
  function SlashAt(s: string): Option<nat> {
    if s == "" then None else if s[0] == '/' then Some(0)
    else match SlashAt(s[1..]) case Some(k) => Some(k + 1) case None => None
  }

  lemma {:induction false} SlashInRange(s: string)
    ensures SlashAt(s).Some? ==> SlashAt(s).value < |s|
  {
    if s != "" { SlashInRange(s[1..]); }
  }

  /** The workspace and name parts of `workspace/name`, when both are there. */
  function Split(s: string): Option<(string, string)> {
    SlashInRange(s);
    match SlashAt(s)
    case None => None
    case Some(k) => if k > 0 && k + 1 < |s| then Some((s[..k], s[k + 1..])) else None
  }

  function Resolve(m: Workspaces, order: seq<string>, identifier: string): Option<Found>
    requires forall n :: n in order ==> n in m
  {
    var byId := IdIn(m, order, identifier);
    if byId.Some? && Live(byId.value.agent) then byId else
    match Split(identifier)
    case Some((ws, name)) =>
      var r := LocalPick(m, ws, name);
      if r.Some? then r else FoldStore(None, m, order, identifier)
    case None => FoldStore(None, m, order, identifier)
  }

  method ResolveAgentFlexible(m: Workspaces, order: seq<string>, identifier: string) returns (r: Option<Found>)
    requires forall n :: n in order ==> n in m
    ensures r == Resolve(m, order, identifier)
  {
    r := FindAgent(m, order, identifier);
    if r.Some? && !r.value.agent.status.Stopped? && !r.value.agent.status.Stopping? {
      return;
    }
    SlashInRange(identifier);
    match SlashAt(identifier)
    case Some(k) =>
      var ws, name := identifier[..k], identifier[k + 1..];
      if ws != "" && name != "" {
        r := FindAgentByWsName(m, ws, name);
        if r.Some? {
          return;
        }
      }
      r := FindAgentByName(m, order, identifier);
    case None =>
      r := FindAgentByName(m, order, identifier);
  }

  // ---- in SQL ----

  type Rows = map<string, ArpStore.AgentRow>

  function StatusText(s: AgentStatus): string {
    match s
    case Starting => "starting"
    case Ready => "ready"
    case Busy => "busy"
    case Error => "error"
    case Stopping => "stopping"
    case Stopped => "stopped"
  }

  predicate LiveRow(r: ArpStore.AgentRow) { r.status != "stopped" && r.status != "stopping" }

  /** SQLite compares text byte by byte, which on UTF-8 is the order of code points. */
  predicate Less(a: string, b: string) {
    b != "" && (a == "" || a[0] < b[0] || (a[0] == b[0] && Less(a[1..], b[1..])))
  }

  lemma {:induction false} LessIsTotal(a: string, b: string)
    ensures a == b || Less(a, b) || Less(b, a)
    ensures !(Less(a, b) && Less(b, a)) && !Less(a, a)
  {
    if a != "" { LessIsTotalSelf(a); }
    if a != "" && b != "" {
      LessIsTotal(a[1..], b[1..]);
      if a[0] == b[0] && a[1..] == b[1..] { assert a == [a[0]] + a[1..] == b; }
    }
  }

  lemma {:induction false} LessIsTotalSelf(a: string)
    ensures !Less(a, a)
  {
    if a != "" { LessIsTotalSelf(a[1..]); }
  }

  lemma {:induction false} LessIsTransitive(a: string, b: string, c: string)
    requires Less(a, b) && Less(b, c)
    ensures Less(a, c)
  {
    if a != "" && a[0] == b[0] && b[0] == c[0] { LessIsTransitive(a[1..], b[1..], c[1..]); }
  }

  /** The order of the queries: ready rows first, then by id. */
  predicate Before(r: ArpStore.AgentRow, o: ArpStore.AgentRow) {
    || (r.status == "ready" && o.status != "ready")
    || ((r.status == "ready") == (o.status == "ready") && Less(r.id, o.id))
  }

  ghost predicate IsFirst(r: ArpStore.AgentRow, rows: set<ArpStore.AgentRow>) {
    r in rows && forall o :: o in rows && o.id != r.id ==> Before(r, o)
  }

  ghost predicate DistinctIds(rows: set<ArpStore.AgentRow>) {
    forall r, o :: r in rows && o in rows && r.id == o.id ==> r == o
  }

  lemma {:induction false} FirstExists(rows: set<ArpStore.AgentRow>)
    requires rows != {} && DistinctIds(rows)
    ensures exists r :: IsFirst(r, rows)
    decreases |rows|
  {
    var x :| x in rows;
    var rest := rows - {x};
    if rest == {} {
      assert rows == {x};
      assert IsFirst(x, rows);
    } else {
      FirstExists(rest);
      var r :| IsFirst(r, rest);
      LessIsTotal(r.id, x.id);
      if Before(r, x) {
        assert IsFirst(r, rows);
      } else {
        forall o | o in rows && o.id != x.id ensures Before(x, o) {
          if o != r && Less(x.id, r.id) && Less(r.id, o.id) { LessIsTransitive(x.id, r.id, o.id); }
        }
        assert IsFirst(x, rows);
      }
    }
  }

  /** `ORDER BY ... LIMIT 1`. */
  ghost function First(rows: set<ArpStore.AgentRow>): (r: Option<ArpStore.AgentRow>)
    requires DistinctIds(rows)
    ensures r.None? <==> rows == {}
    ensures r.Some? ==> IsFirst(r.value, rows)
  {
    if rows == {} then None
    else
      FirstExists(rows);
      var r :| IsFirst(r, rows);
      Some(r)
  }

  /** The rows the two queries select from. */
  function Named(rows: Rows, name: string): set<ArpStore.AgentRow> {
    set id | id in rows && rows[id].name == name && LiveRow(rows[id]) :: rows[id]
  }

  function NamedIn(rows: Rows, ws: string, name: string): set<ArpStore.AgentRow> {
    set id | id in rows && rows[id].workspace == ws && rows[id].name == name && LiveRow(rows[id]) :: rows[id]
  }

  ghost predicate Keyed(rows: Rows) { forall id :: id in rows ==> rows[id].id == id }

  ghost function SqlResolve(rows: Rows, identifier: string): Option<ArpStore.AgentRow>
    requires Keyed(rows)
  {
    if identifier in rows && LiveRow(rows[identifier]) then Some(rows[identifier]) else
    match Split(identifier)
    case Some((ws, name)) =>
      var r := First(NamedIn(rows, ws, name));
      if r.Some? then r else First(Named(rows, identifier))
    case None => First(Named(rows, identifier))
  }

  // ---- what the fold finds, under any order ----

  function Combine(best: Option<Found>, pick: Option<Found>): Option<Found> {
    if pick.Some? && Replaces(pick.value.agent, best) then pick else best
  }

  lemma {:induction false} FoldAgentsCombines(best: Option<Found>, ws: string, agents: seq<Agent>, name: string)
    ensures FoldAgents(best, ws, agents, name) == Combine(best, FoldAgents(None, ws, agents, name))
    decreases |agents|
  {
    if agents != [] {
      var a := agents[0];
      var best' := if Matches(a, name) && Replaces(a, best) then Some(Found(ws, a)) else best;
      var none' := if Matches(a, name) then Some(Found(ws, a)) else None;
      FoldAgentsCombines(best', ws, agents[1..], name);
      FoldAgentsCombines(none', ws, agents[1..], name);
    }
  }

  /** The pick is at `i`: no earlier match is as good, and no match at all is better. */
  ghost predicate PickedAt(agents: seq<Agent>, name: string, i: nat) {
    && i < |agents| && Matches(agents[i], name)
    && (forall j :: 0 <= j < i && Matches(agents[j], name) ==> agents[i].status.Ready? && !agents[j].status.Ready?)
    && (forall j :: 0 <= j < |agents| && Matches(agents[j], name) && agents[j].status.Ready? ==>
          agents[i].status.Ready?)
  }

  lemma {:induction false} PickIsFirstBest(ws: string, agents: seq<Agent>, name: string)
    ensures var p := FoldAgents(None, ws, agents, name);
            && (p.None? <==> forall j :: 0 <= j < |agents| ==> !Matches(agents[j], name))
            && (p.Some? ==>
                  p.value.ws == ws && exists i: nat :: PickedAt(agents, name, i) && agents[i] == p.value.agent)
    decreases |agents|
  {
    if agents != [] {
      var a, rest := agents[0], agents[1..];
      assert forall j :: 1 <= j < |agents| ==> agents[j] == rest[j - 1];
      PickIsFirstBest(ws, rest, name);
      var p := FoldAgents(None, ws, rest, name);
      if Matches(a, name) {
        FoldAgentsCombines(Some(Found(ws, a)), ws, rest, name);
      }
      if p.Some? && (!Matches(a, name) || (p.value.agent.status.Ready? && !a.status.Ready?)) {
        var i: nat :| PickedAt(rest, name, i) && rest[i] == p.value.agent;
        assert PickedAt(agents, name, i + 1);
      } else if Matches(a, name) {
        assert PickedAt(agents, name, 0);
      }
    }
  }

  predicate ReadyPick(p: Option<Found>) { p.Some? && p.value.agent.status.Ready? }

  /** A fold over the store keeps a good enough start, and otherwise ends with the pick of some workspace. */
  lemma {:induction false} FoldStoreOutcome(best: Option<Found>, m: Workspaces, order: seq<string>, name: string)
    requires forall n :: n in order ==> n in m
    ensures var r := FoldStore(best, m, order, name);
            && (r.None? <==> best.None? && forall n :: n in order ==> LocalPick(m, n, name).None?)
            && (ReadyPick(r) <==> ReadyPick(best) || exists n :: n in order && ReadyPick(LocalPick(m, n, name)))
            && (r.Some? ==> r == best || (r.value.ws in order && r == LocalPick(m, r.value.ws, name)))
            && (ReadyPick(best) ==> r == best)
            && (best.Some? && !ReadyPick(r) ==> r == best)
    decreases |order|
  {
    if order != [] {
      var n := order[0];
      FoldAgentsCombines(best, n, m[n].agents, name);
      PickIsFirstBest(n, m[n].agents, name);
      FoldStoreOutcome(Combine(best, LocalPick(m, n, name)), m, order[1..], name);
      assert forall k :: k in order <==> k == n || k in order[1..];
    }
  }

  lemma {:induction false} SomeOrder(s: set<string>) returns (order: seq<string>)
    ensures forall n :: n in order <==> n in s
    ensures forall i, j :: 0 <= i < j < |order| ==> order[i] != order[j]
    decreases |s|
  {
    order := [];
    if s != {} {
      var n :| n in s;
      var rest := SomeOrder(s - {n});
      order := [n] + rest;
    }
  }

  /** The results a name lookup can have, over all orders: the pick of any workspace, ready if any pick is. */
  lemma NameLookupOutcomes(m: Workspaces, name: string, f: Found)
    ensures (exists order :: HashOrder(order, m) && FoldStore(None, m, order, name) == Some(f)) <==>
            && LocalPick(m, f.ws, name) == Some(f)
            && (f.agent.status.Ready? || forall n :: n in m ==> !ReadyPick(LocalPick(m, n, name)))
  {
    if order :| HashOrder(order, m) && FoldStore(None, m, order, name) == Some(f) {
      FoldStoreOutcome(None, m, order, name);
    }
    if LocalPick(m, f.ws, name) == Some(f)
       && (f.agent.status.Ready? || forall n :: n in m ==> !ReadyPick(LocalPick(m, n, name))) {
      var rest := SomeOrder(m.Keys - {f.ws});
      var order := [f.ws] + rest;
      assert order[1..] == rest;
      FoldStoreOutcome(Some(f), m, rest, name);
      assert HashOrder(order, m) && FoldStore(None, m, order, name) == Some(f);
    }
  }

  // ---- the same agents on both sides ----

  predicate RowOf(r: ArpStore.AgentRow, f: Found) {
    r.id == f.agent.id && r.workspace == f.ws && r.name == f.agent.name && r.status == StatusText(f.agent.status)
  }

  ghost predicate HasAgent(m: Workspaces, f: Found) { f.ws in m && f.agent in m[f.ws].agents }

  ghost predicate SameAgents(m: Workspaces, rows: Rows) {
    && Keyed(rows)
    && (forall f :: HasAgent(m, f) ==> f.agent.id in rows && RowOf(rows[f.agent.id], f))
    && (forall id :: id in rows ==> exists f :: HasAgent(m, f) && f.agent.id == id)
    && (forall n, i, j :: n in m && 0 <= i < j < |m[n].agents| ==> m[n].agents[i].id != m[n].agents[j].id)
  }

  lemma StatusTextIsFaithful(a: Agent, r: ArpStore.AgentRow)
    requires r.status == StatusText(a.status)
    ensures LiveRow(r) <==> Live(a)
    ensures r.status == "ready" <==> a.status.Ready?
  {
    assert "starting"[0] == 's' && "stopping"[2] == 'o' && "starting"[2] == 'a' && "stopped"[2] == 'o';
    assert "busy"[0] == 'b' && "error"[0] == 'e' && "ready"[0] == 'r' && "stopped"[0] == 's' && "stopping"[0] == 's';
  }

  /** A status is stored as its name in lower case. */
  lemma StatusIsStoredByName(s: AgentStatus)
    ensures s == match StatusText(s)
              case "starting" => Starting
              case "ready" => Ready
              case "busy" => Busy
              case "error" => Error
              case "stopping" => Stopping
              case _ => Stopped
    ensures s.Stopped? ==> StatusText(s) == "stopped"
  {
    assert "starting"[1] == 't' && "stopping"[2] == 'o' && "starting"[2] == 'a' && "stopped"[5] == 'e';
    assert "stopping"[5] == 'i' && "busy"[0] == 'b' && "error"[0] == 'e' && "ready"[0] == 'r';
  }

  lemma OneAgentPerId(m: Workspaces, rows: Rows, f: Found, g: Found)
    requires SameAgents(m, rows) && HasAgent(m, f) && HasAgent(m, g) && f.agent.id == g.agent.id
    ensures f == g
  {
    assert RowOf(rows[f.agent.id], f) && RowOf(rows[f.agent.id], g);
  }

  lemma {:induction false} AgentAtFinds(agents: seq<Agent>, id: string)
    ensures AgentAt(agents, id).Some? ==> AgentAt(agents, id).value in agents && AgentAt(agents, id).value.id == id
    ensures AgentAt(agents, id).None? ==> forall a :: a in agents ==> a.id != id
  {
    if agents != [] { AgentAtFinds(agents[1..], id); }
  }

  lemma {:induction false} IdInFinds(m: Workspaces, order: seq<string>, id: string)
    requires forall n :: n in order ==> n in m
    ensures IdIn(m, order, id).Some? ==>
              HasAgent(m, IdIn(m, order, id).value) && IdIn(m, order, id).value.agent.id == id
    ensures IdIn(m, order, id).None? ==> forall f :: HasAgent(m, f) && f.ws in order ==> f.agent.id != id
    decreases |order|
  {
    if order != [] {
      AgentAtFinds(m[order[0]].agents, id);
      IdInFinds(m, order[1..], id);
    }
  }

  /** Both sides find the same agent by id, whatever the order. */
  lemma IdStageAgrees(m: Workspaces, rows: Rows, order: seq<string>, id: string)
    requires SameAgents(m, rows) && HashOrder(order, m)
    ensures IdIn(m, order, id).Some? <==> id in rows
    ensures id in rows ==> RowOf(rows[id], IdIn(m, order, id).value)
                           && (LiveRow(rows[id]) <==> Live(IdIn(m, order, id).value.agent))
  {
    IdInFinds(m, order, id);
    if id in rows {
      var f :| HasAgent(m, f) && f.agent.id == id;
      assert IdIn(m, order, id).Some?;
      StatusTextIsFaithful(IdIn(m, order, id).value.agent, rows[id]);
    }
  }

  /** A row is among the named ones of a workspace exactly when the workspace holds a matching agent it describes. */
  lemma NamedRows(m: Workspaces, rows: Rows, f: Found, name: string)
    requires SameAgents(m, rows) && HasAgent(m, f)
    ensures Matches(f.agent, name) <==> rows[f.agent.id] in NamedIn(rows, f.ws, name)
    ensures Matches(f.agent, name) <==> rows[f.agent.id] in Named(rows, name)
  {
    StatusTextIsFaithful(f.agent, rows[f.agent.id]);
    assert RowOf(rows[f.agent.id], f);
  }

  lemma LocalPickMatches(m: Workspaces, ws: string, name: string)
    ensures var p := LocalPick(m, ws, name);
            && (p.Some? ==> p.value.ws == ws && HasAgent(m, p.value) && Matches(p.value.agent, name))
            && (forall f :: HasAgent(m, f) && f.ws == ws && Matches(f.agent, name) ==>
                  p.Some? && (f.agent.status.Ready? ==> p.value.agent.status.Ready?))
  {
    if ws in m {
      PickIsFirstBest(ws, m[ws].agents, name);
    }
  }

  lemma FirstIsReady(rows: set<ArpStore.AgentRow>, o: ArpStore.AgentRow)
    requires DistinctIds(rows) && o in rows && o.status == "ready"
    ensures First(rows).value.status == "ready"
  {
    assert IsFirst(First(rows).value, rows);
  }

  /** The query over one workspace, and the fold over it, find something together, and something ready together. */
  lemma WsStageAgrees(m: Workspaces, rows: Rows, ws: string, name: string)
    requires SameAgents(m, rows)
    ensures var r, p := First(NamedIn(rows, ws, name)), LocalPick(m, ws, name);
            && (r.Some? <==> p.Some?)
            && (r.Some? ==> (r.value.status == "ready" <==> ReadyPick(p)))
  {
    var r, p := First(NamedIn(rows, ws, name)), LocalPick(m, ws, name);
    LocalPickMatches(m, ws, name);
    if p.Some? {
      NamedRows(m, rows, p.value, name);
      StatusTextIsFaithful(p.value.agent, rows[p.value.agent.id]);
      if ReadyPick(p) { FirstIsReady(NamedIn(rows, ws, name), rows[p.value.agent.id]); }
    }
    if r.Some? {
      var f := AgentOfRow(m, rows, r.value);
      NamedRows(m, rows, f, name);
    }
  }

  /** The agent a row describes. */
  lemma AgentOfRow(m: Workspaces, rows: Rows, r: ArpStore.AgentRow) returns (f: Found)
    requires SameAgents(m, rows) && r.id in rows && rows[r.id] == r
    ensures HasAgent(m, f) && RowOf(r, f) && f.agent.id == r.id
    ensures LiveRow(r) <==> Live(f.agent)
    ensures r.status == "ready" <==> f.agent.status.Ready?
  {
    f :| HasAgent(m, f) && f.agent.id == r.id;
    StatusTextIsFaithful(f.agent, r);
  }

  lemma NameStageAgrees(m: Workspaces, rows: Rows, order: seq<string>, name: string)
    requires SameAgents(m, rows) && HashOrder(order, m)
    ensures var r, p := First(Named(rows, name)), FoldStore(None, m, order, name);
            && (r.Some? <==> p.Some?)
            && (r.Some? ==> (r.value.status == "ready" <==> ReadyPick(p)))
  {
    var r, p := First(Named(rows, name)), FoldStore(None, m, order, name);
    FoldStoreOutcome(None, m, order, name);
    forall n | n in m ensures
        var q := LocalPick(m, n, name);
        && (q.Some? ==> r.Some?)
        && (ReadyPick(q) ==> r.Some? && r.value.status == "ready")
    {
      var q := LocalPick(m, n, name);
      LocalPickMatches(m, n, name);
      if q.Some? {
        NamedRows(m, rows, q.value, name);
        StatusTextIsFaithful(q.value.agent, rows[q.value.agent.id]);
        if ReadyPick(q) { FirstIsReady(Named(rows, name), rows[q.value.agent.id]); }
      }
    }
    if r.Some? {
      var f := AgentOfRow(m, rows, r.value);
      NamedRows(m, rows, f, name);
      LocalPickMatches(m, f.ws, name);
    }
  }

  // ---- the query against the fold ----

  /** The stage that answers: an id, a name within a workspace, or a name anywhere. */
  datatype Stage = ById | InWorkspace(ws: string, name: string) | Anywhere(name: string)

  ghost function StageOf(rows: Rows, identifier: string): Stage
    requires Keyed(rows)
  {
    if identifier in rows && LiveRow(rows[identifier]) then ById else
    match Split(identifier)
    case Some((ws, name)) => if NamedIn(rows, ws, name) != {} then InWorkspace(ws, name) else Anywhere(identifier)
    case None => Anywhere(identifier)
  }

  ghost function SqlAt(rows: Rows, identifier: string, stage: Stage): Option<ArpStore.AgentRow>
    requires Keyed(rows)
  {
    match stage
    case ById => if identifier in rows then Some(rows[identifier]) else None
    case InWorkspace(ws, name) => First(NamedIn(rows, ws, name))
    case Anywhere(name) => First(Named(rows, name))
  }

  function FoldAt(m: Workspaces, order: seq<string>, identifier: string, stage: Stage): Option<Found>
    requires forall n :: n in order ==> n in m
  {
    match stage
    case ById => IdIn(m, order, identifier)
    case InWorkspace(ws, name) => LocalPick(m, ws, name)
    case Anywhere(name) => FoldStore(None, m, order, name)
  }

  /** Both resolvers answer at the same stage, whatever the order. */
  lemma SameStage(m: Workspaces, rows: Rows, order: seq<string>, identifier: string)
    requires SameAgents(m, rows) && HashOrder(order, m)
    ensures SqlResolve(rows, identifier) == SqlAt(rows, identifier, StageOf(rows, identifier))
    ensures Resolve(m, order, identifier) == FoldAt(m, order, identifier, StageOf(rows, identifier))
  {
    IdStageAgrees(m, rows, order, identifier);
    match Split(identifier)
    case Some((ws, name)) => WsStageAgrees(m, rows, ws, name);
    case None =>
  }

  /** The two resolvers find something for the same identifiers, under every order. */
  lemma NoneAgrees(m: Workspaces, rows: Rows, order: seq<string>, identifier: string)
    requires SameAgents(m, rows) && HashOrder(order, m)
    ensures SqlResolve(rows, identifier).None? <==> Resolve(m, order, identifier).None?
  {
    SameStage(m, rows, order, identifier);
    match StageOf(rows, identifier)
    case ById => IdStageAgrees(m, rows, order, identifier);
    case InWorkspace(ws, name) => WsStageAgrees(m, rows, ws, name);
    case Anywhere(name) => NameStageAgrees(m, rows, order, name);
  }

  /** Which results some order gives comes down to what the fold picks within one workspace. */
  lemma QueryResultIsAllowed(m: Workspaces, rows: Rows, identifier: string, f: Found)
    requires SameAgents(m, rows) && HasAgent(m, f) && SqlResolve(rows, identifier) == Some(rows[f.agent.id])
    ensures (exists order :: HashOrder(order, m) && Resolve(m, order, identifier) == Some(f)) <==>
            StageOf(rows, identifier).ById? || LocalPick(m, f.ws, StageOf(rows, identifier).name) == Some(f)
  {
    var some := SomeOrder(m.Keys);
    SameStage(m, rows, some, identifier);
    forall order | HashOrder(order, m)
      ensures Resolve(m, order, identifier) == FoldAt(m, order, identifier, StageOf(rows, identifier))
    {
      SameStage(m, rows, order, identifier);
    }
    match StageOf(rows, identifier)
    case ById =>
      IdStageAgrees(m, rows, some, identifier);
      IdInFinds(m, some, identifier);
      OneAgentPerId(m, rows, f, IdIn(m, some, identifier).value);
      assert HashOrder(some, m) && Resolve(m, some, identifier) == Some(f);
    case InWorkspace(ws, name) =>
      InItsWorkspace(m, rows, ws, name, f);
      assert HashOrder(some, m) && Resolve(m, some, identifier) == LocalPick(m, ws, name);
    case Anywhere(name) => AllowedByName(m, rows, name, f);
  }

  lemma InItsWorkspace(m: Workspaces, rows: Rows, ws: string, name: string, f: Found)
    requires SameAgents(m, rows) && HasAgent(m, f) && First(NamedIn(rows, ws, name)) == Some(rows[f.agent.id])
    ensures f.ws == ws
  {
    assert rows[f.agent.id] in NamedIn(rows, ws, name) && RowOf(rows[f.agent.id], f);
  }

  lemma AllowedByName(m: Workspaces, rows: Rows, name: string, f: Found)
    requires SameAgents(m, rows) && HasAgent(m, f) && First(Named(rows, name)) == Some(rows[f.agent.id])
    ensures (exists order :: HashOrder(order, m) && FoldStore(None, m, order, name) == Some(f)) <==>
            LocalPick(m, f.ws, name) == Some(f)
  {
    NameLookupOutcomes(m, name, f);
    var order := SomeOrder(m.Keys);
    NameStageAgrees(m, rows, order, name);
    FoldStoreOutcome(None, m, order, name);
    StatusTextIsFaithful(f.agent, rows[f.agent.id]);
  }

  /** The agents a stage by name chooses among. */
  ghost predicate Candidate(m: Workspaces, stage: Stage, f: Found)
    requires !stage.ById?
  {
    HasAgent(m, f) && Matches(f.agent, stage.name) && (stage.InWorkspace? ==> f.ws == stage.ws)
  }

  /** Every other candidate is less ready, or equally ready with a greater id. */
  ghost predicate Best(m: Workspaces, stage: Stage, f: Found)
    requires !stage.ById?
  {
    && Candidate(m, stage, f)
    && forall g :: Candidate(m, stage, g) && g != f ==>
         || (f.agent.status.Ready? && !g.agent.status.Ready?)
         || (f.agent.status.Ready? == g.agent.status.Ready? && Less(f.agent.id, g.agent.id))
  }

  /** No agent of that name and readiness is listed before it in its workspace. */
  ghost predicate ListedFirst(m: Workspaces, f: Found, name: string) {
    && f.ws in m
    && exists i: nat :: FirstOfItsKind(m[f.ws].agents, name, i) && m[f.ws].agents[i] == f.agent
  }

  ghost predicate FirstOfItsKind(agents: seq<Agent>, name: string, i: nat) {
    && i < |agents|
    && forall j :: 0 <= j < i && Matches(agents[j], name) ==> agents[j].status.Ready? != agents[i].status.Ready?
  }

  /** The rows a stage selects. */
  function RowsAt(rows: Rows, stage: Stage): set<ArpStore.AgentRow>
    requires !stage.ById?
  {
    match stage
    case InWorkspace(ws, name) => NamedIn(rows, ws, name)
    case Anywhere(name) => Named(rows, name)
  }

  /** A stage by name answers with its best candidate. */
  lemma QueryPicksBest(m: Workspaces, rows: Rows, stage: Stage, f: Found)
    requires SameAgents(m, rows) && !stage.ById? && HasAgent(m, f)
    requires First(RowsAt(rows, stage)) == Some(rows[f.agent.id])
    ensures Best(m, stage, f)
  {
    var s := RowsAt(rows, stage);
    assert rows[f.agent.id] in s && RowOf(rows[f.agent.id], f) && IsFirst(rows[f.agent.id], s);
    NamedRows(m, rows, f, stage.name);
    StatusTextIsFaithful(f.agent, rows[f.agent.id]);
    forall g | Candidate(m, stage, g) && g != f ensures Before(rows[f.agent.id], rows[g.agent.id]) {
      NamedRows(m, rows, g, stage.name);
      if g.agent.id == f.agent.id { OneAgentPerId(m, rows, f, g); }
    }
    forall g | Candidate(m, stage, g) ensures rows[g.agent.id].status == "ready" <==> g.agent.status.Ready? {
      StatusTextIsFaithful(g.agent, rows[g.agent.id]);
    }
  }

  lemma BestIsUnique(m: Workspaces, stage: Stage, f: Found, g: Found)
    requires !stage.ById? && Best(m, stage, f) && Best(m, stage, g)
    ensures f == g
  {
    LessIsTotal(f.agent.id, g.agent.id);
  }

  /** The fold picks the best candidate within its workspace exactly when it is listed first. */
  lemma PickIsBestListedFirst(m: Workspaces, stage: Stage, f: Found)
    requires !stage.ById? && Best(m, stage, f)
    ensures LocalPick(m, f.ws, stage.name) == Some(f) <==> ListedFirst(m, f, stage.name)
  {
    var agents, p := m[f.ws].agents, LocalPick(m, f.ws, stage.name);
    LocalPickMatches(m, f.ws, stage.name);
    PickIsFirstBest(f.ws, agents, stage.name);
    assert Candidate(m, stage, p.value);
    var i: nat :| PickedAt(agents, stage.name, i) && agents[i] == p.value.agent;
    if p == Some(f) {
      assert FirstOfItsKind(agents, stage.name, i);
    }
    if k: nat :| FirstOfItsKind(agents, stage.name, k) && agents[k] == f.agent {
      assert f.agent.status.Ready? == p.value.agent.status.Ready?;
      assert i == k;
    }
  }

  /**
    The query's result is one the fold gives under some order exactly when an id answered, or the best
    candidate of the stage is listed first of its kind in its workspace.
  */
  lemma QueryAllowedExactly(m: Workspaces, rows: Rows, identifier: string)
    requires SameAgents(m, rows) && SqlResolve(rows, identifier).Some?
    ensures (exists f, order :: HashOrder(order, m) && Resolve(m, order, identifier) == Some(f)
                                && RowOf(SqlResolve(rows, identifier).value, f)) <==>
            var stage := StageOf(rows, identifier);
            stage.ById? || exists f :: Best(m, stage, f) && ListedFirst(m, f, stage.name)
  {
    var stage, r := StageOf(rows, identifier), SqlResolve(rows, identifier).value;
    var some := SomeOrder(m.Keys);
    SameStage(m, rows, some, identifier);
    var f := AgentOfRow(m, rows, r);
    QueryResultIsAllowed(m, rows, identifier, f);
    forall g, order | HashOrder(order, m) && Resolve(m, order, identifier) == Some(g) && RowOf(r, g) ensures g == f {
      ResultsAreLive(m, rows, order, identifier);
      OneAgentPerId(m, rows, f, g);
    }
    if !stage.ById? {
      QueryPicksBest(m, rows, stage, f);
      PickIsBestListedFirst(m, stage, f);
      forall g | Best(m, stage, g) ensures g == f { BestIsUnique(m, stage, f, g); }
    }
  }

  /** Within every workspace, live agents of one name and one readiness are listed by id. */
  ghost predicate ListedById(m: Workspaces) {
    forall n, i, j :: n in m && 0 <= i < j < |m[n].agents| && Matches(m[n].agents[i], m[n].agents[j].name)
      && Live(m[n].agents[j]) && m[n].agents[i].status.Ready? == m[n].agents[j].status.Ready?
      ==> Less(m[n].agents[i].id, m[n].agents[j].id)
  }

  lemma ListedByIdMeansFirst(m: Workspaces, stage: Stage, f: Found)
    requires !stage.ById? && ListedById(m) && Best(m, stage, f)
    ensures ListedFirst(m, f, stage.name)
  {
    var agents := m[f.ws].agents;
    var i :| 0 <= i < |agents| && agents[i] == f.agent;
    forall j | 0 <= j < i && Matches(agents[j], stage.name)
      ensures agents[j].status.Ready? != agents[i].status.Ready?
    {
      assert Candidate(m, stage, Found(f.ws, agents[j]));
      LessIsTotal(agents[j].id, agents[i].id);
    }
    assert FirstOfItsKind(agents, stage.name, i);
  }

  /** With workspaces listing their agents by id, the query only ever gives results the fold gives under some order. */
  lemma QueryRefinesFold(m: Workspaces, rows: Rows, identifier: string) returns (f: Found, order: seq<string>)
    requires SameAgents(m, rows) && ListedById(m) && SqlResolve(rows, identifier).Some?
    ensures HashOrder(order, m) && Resolve(m, order, identifier) == Some(f)
    ensures RowOf(SqlResolve(rows, identifier).value, f)
  {
    var stage, r := StageOf(rows, identifier), SqlResolve(rows, identifier).value;
    if !stage.ById? {
      var some := SomeOrder(m.Keys);
      SameStage(m, rows, some, identifier);
      var g := AgentOfRow(m, rows, r);
      QueryPicksBest(m, rows, stage, g);
      ListedByIdMeansFirst(m, stage, g);
    }
    QueryAllowedExactly(m, rows, identifier);
    f, order :| HashOrder(order, m) && Resolve(m, order, identifier) == Some(f) && RowOf(r, f);
  }

  /**
    Neither resolver returns an agent that is stopped or stopping, and both return a ready one if either does
    by name.
  */
  lemma ResultsAreLive(m: Workspaces, rows: Rows, order: seq<string>, identifier: string)
    requires SameAgents(m, rows) && HashOrder(order, m) && SqlResolve(rows, identifier).Some?
    ensures Resolve(m, order, identifier).Some?
    ensures var r, p := SqlResolve(rows, identifier).value, Resolve(m, order, identifier).value;
            && LiveRow(r) && HasAgent(m, p) && Live(p.agent)
            && (StageOf(rows, identifier).ById? ==> r == rows[identifier] && RowOf(r, p))
            && (r.status == "ready" <==> p.agent.status.Ready?)
  {
    SameStage(m, rows, order, identifier);
    NoneAgrees(m, rows, order, identifier);
    var p := Resolve(m, order, identifier).value;
    match StageOf(rows, identifier)
    case ById =>
      IdStageAgrees(m, rows, order, identifier);
      IdInFinds(m, order, identifier);
      StatusTextIsFaithful(p.agent, rows[identifier]);
    case InWorkspace(ws, name) =>
      WsStageAgrees(m, rows, ws, name);
      LocalPickMatches(m, ws, name);
    case Anywhere(name) =>
      NameStageAgrees(m, rows, order, name);
      FoldStoreOutcome(None, m, order, name);
      LocalPickMatches(m, p.ws, name);
  }

  /** A name lookup is ready whenever any live agent of that name is. */
  lemma ReadyIsPreferred(m: Workspaces, rows: Rows, order: seq<string>, name: string, f: Found)
    requires SameAgents(m, rows) && HashOrder(order, m)
    requires HasAgent(m, f) && Matches(f.agent, name) && f.agent.status.Ready?
    ensures ReadyPick(FoldStore(None, m, order, name))
    ensures First(Named(rows, name)).Some? && First(Named(rows, name)).value.status == "ready"
    ensures First(NamedIn(rows, f.ws, name)).Some? && First(NamedIn(rows, f.ws, name)).value.status == "ready"
  {
    NamedRows(m, rows, f, name);
    StatusTextIsFaithful(f.agent, rows[f.agent.id]);
    FirstIsReady(Named(rows, name), rows[f.agent.id]);
    FirstIsReady(NamedIn(rows, f.ws, name), rows[f.agent.id]);
    NameStageAgrees(m, rows, order, name);
  }

  // ---- what an identifier names ----

  lemma {:induction false} FirstSlash(ws: string, name: string)
    requires '/' !in ws
    ensures SlashAt(ws + "/" + name) == Some(|ws|)
  {
    var s := ws + "/" + name;
    if ws != "" {
      assert s[0] == ws[0] && s[1..] == ws[1..] + "/" + name;
      FirstSlash(ws[1..], name);
    }
  }

  lemma {:induction false} SlashIsFirst(s: string)
    ensures SlashAt(s).None? ==> '/' !in s
    ensures SlashAt(s).Some? ==> SlashAt(s).value < |s| && s[SlashAt(s).value] == '/' && '/' !in s[..SlashAt(s).value]
  {
    if s != "" && s[0] != '/' {
      SlashIsFirst(s[1..]);
      assert s == [s[0]] + s[1..];
      if SlashAt(s).Some? { assert s[..SlashAt(s).value] == [s[0]] + s[1..][..SlashAt(s).value - 1]; }
    }
  }

  /**
    An identifier splits into a workspace and a name exactly when it is the two joined by a slash, none in the
    first.
  */
  lemma SplitIsJoin(s: string, ws: string, name: string)
    ensures Split(s) == Some((ws, name)) <==> s == ws + "/" + name && '/' !in ws && ws != "" && name != ""
  {
    SlashIsFirst(s);
    if Split(s) == Some((ws, name)) {
      assert s == s[..|ws|] + [s[|ws|]] + s[|ws| + 1..];
    }
    if s == ws + "/" + name && '/' !in ws && ws != "" && name != "" {
      FirstSlash(ws, name);
      assert s[..|ws|] == ws && s[|ws| + 1..] == name;
    }
  }

  /**
    Naming a workspace and an agent in it finds a live agent of that name there, if there is one and the whole is
    nobody's id; otherwise the whole is taken for a name. Both resolvers do so.
  */
  lemma WorkspaceAndName(m: Workspaces, rows: Rows, order: seq<string>, ws: string, name: string)
    requires SameAgents(m, rows) && HashOrder(order, m) && ws + "/" + name !in rows
    requires '/' !in ws && ws != "" && name != ""
    ensures var id := ws + "/" + name;
            var p, r := Resolve(m, order, id), SqlResolve(rows, id);
            if exists f :: HasAgent(m, f) && f.ws == ws && Matches(f.agent, name)
            then p.Some? && HasAgent(m, p.value) && p.value.ws == ws && Matches(p.value.agent, name)
                 && r.Some? && r.value.workspace == ws && r.value.name == name && LiveRow(r.value)
            else (p.Some? ==> Matches(p.value.agent, id)) && (r.Some? ==> r.value.name == id && LiveRow(r.value))
  {
    var id := ws + "/" + name;
    SplitIsJoin(id, ws, name);
    IdStageAgrees(m, rows, order, id);
    LocalPickMatches(m, ws, name);
    WsStageAgrees(m, rows, ws, name);
    FoldStoreOutcome(None, m, order, id);
    var p := FoldStore(None, m, order, id);
    if p.Some? { LocalPickMatches(m, p.value.ws, id); }
  }

  /** The order of ids is that of the first characters that differ, and a prefix comes first. */
  lemma {:induction false} LessAtDifference(p: string, x: char, y: char, s: string, t: string)
    requires x < y
    ensures Less(p + [x] + s, p + [y] + t) && !Less(p + [y] + t, p + [x] + s)
    ensures Less(p, p + [x] + s)
  {
    var a, b := p + [x] + s, p + [y] + t;
    if p != "" {
      assert a[0] == b[0] == p[0] && a[1..] == p[1..] + [x] + s && b[1..] == p[1..] + [y] + t;
      LessAtDifference(p[1..], x, y, s, t);
    }
  }

  lemma FoldTwo(ws: string, a: Agent, b: Agent, name: string)
    requires Matches(a, name) && a.status.Ready?
    ensures FoldAgents(None, ws, [a, b], name) == Some(Found(ws, a))
  {
    var agents := [a, b];
    assert agents[1..] == [b];
    FoldAgentsCombines(Some(Found(ws, a)), ws, [b], name);
    assert FoldAgents(Some(Found(ws, a)), ws, [b][1..], name) == Some(Found(ws, a));
  }

  const AGENT_A := Agent("a", "n", Ready, 9100, None)
  const AGENT_B := Agent("b", "n", Ready, 9101, None)
  const ROW_A := ArpStore.AgentRow("a", "w", "n", "ready", 9100, None)
  const ROW_B := ArpStore.AgentRow("b", "w", "n", "ready", 9101, None)
  const TWINS: Workspaces := map["w" := NewWorkspace("p").(agents := [AGENT_B, AGENT_A])]
  const TWIN_ROWS: Rows := map["a" := ROW_A, "b" := ROW_B]

  lemma TwinsAreTheSame()
    ensures SameAgents(TWINS, TWIN_ROWS)
  {
    assert TWINS["w"].agents == [AGENT_B, AGENT_A];
    assert HasAgent(TWINS, Found("w", AGENT_A)) && HasAgent(TWINS, Found("w", AGENT_B));
  }

  lemma TwinsInSql()
    ensures First(Named(TWIN_ROWS, "n")) == Some(ROW_A)
  {
    var rows := Named(TWIN_ROWS, "n");
    assert TWIN_ROWS["a"] in rows && TWIN_ROWS["b"] in rows;
    assert IsFirst(First(rows).value, rows) && !Before(ROW_B, ROW_A);
  }

  lemma TwinsStage()
    ensures Keyed(TWIN_ROWS) && StageOf(TWIN_ROWS, "n") == Anywhere("n")
  {
    assert "n"[0] != '/' && "n"[1..] == "";
    assert "n"[0] != "a"[0] && "n"[0] != "b"[0];
  }

  lemma TwinsInMemory(order: seq<string>)
    requires HashOrder(order, TWINS)
    ensures FoldStore(None, TWINS, order, "n") == Some(Found("w", AGENT_B))
  {
    FoldStoreOutcome(None, TWINS, order, "n");
    FoldTwo("w", AGENT_B, AGENT_A, "n");
    assert TWINS["w"].agents == [AGENT_B, AGENT_A];
    assert "w" in order && forall n :: n in order ==> n == "w";
  }

  /**
    Two ready agents of one name, listed in one workspace against the order of their ids: the query picks one
    the fold never does.
  */
  lemma QueryCanDisagree(order: seq<string>)
    requires HashOrder(order, TWINS)
    ensures SameAgents(TWINS, TWIN_ROWS)
    ensures SqlResolve(TWIN_ROWS, "n") == Some(ROW_A)
    ensures Resolve(TWINS, order, "n") == Some(Found("w", AGENT_B))
  {
    TwinsAreTheSame();
    TwinsStage();
    SameStage(TWINS, TWIN_ROWS, order, "n");
    TwinsInSql();
    TwinsInMemory(order);
  }
}
