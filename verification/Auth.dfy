/**
  Scoped tokens: what a token reaches, how a child token narrows its parent, and the check the token
  service makes on its own before it mints one. Signing and encoding are not modelled; ids and times
  are handed in.
*/
module Auth {
  import opened Wrappers

  datatype Scope = Global | Projects(projects: seq<string>)

  datatype Permission = Session | Project | Admin

  function Rank(p: Permission): nat {
    match p case Session => 0 case Project => 1 case Admin => 2
  }

  datatype Token = Token(
    id: string,
    subject: string,
    scope: Scope,
    permission: Permission,
    sessionId: Option<string>,
    issuedAt: string,
    expiresAt: Option<string>,
    parentId: Option<string>)

  predicate ScopeIncludes(scope: Scope, project: string) {
    match scope case Global => true case Projects(ps) => project in ps
  }

  predicate PermissionAllows(has: Permission, required: Permission) { Rank(has) >= Rank(required) }

  predicate SessionMatches(token: Token, agentSession: Option<string>) {
    match token.permission
    case Session => token.sessionId.Some? && agentSession == token.sessionId
    case _ => true
  }

  predicate ScopeIsSubset(child: Scope, parent: Scope) {
    match parent
    case Global => true
    case Projects(ps) =>
      match child
      case Global => false
      case Projects(cs) => forall c :: c in cs ==> c in ps
  }

  /** A name no list of projects can be relied on to hold: one longer than all of them. */
  lemma {:induction false} NameOutside(ps: seq<string>) returns (p: string)
    ensures p != "" && forall q :: q in ps ==> |q| < |p|
  {
    p := "x";
    if ps != [] {
      var p' := NameOutside(ps[1..]);
      p := p' + ps[0];
    }
  }

  /** The executable test decides inclusion over all project names. */
  lemma SubsetIsInclusion(child: Scope, parent: Scope)
    ensures ScopeIsSubset(child, parent) <==>
            forall p :: ScopeIncludes(child, p) ==> ScopeIncludes(parent, p)
  {
    if child.Global? && parent.Projects? {
      var p := NameOutside(parent.projects);
      assert ScopeIncludes(child, p) && !ScopeIncludes(parent, p);
    } else if child.Projects? {
      forall c | c in child.projects ensures ScopeIncludes(child, c) {}
    }
  }

  datatype ChildError = PermissionExceeds | ScopeExceeds

  function Child(parent: Token, scope: Option<Scope>, permission: Option<Permission>, id: string, now: string):
    Result<Token, ChildError>
  {
    var s := if scope.Some? then scope.value else parent.scope;
    var p := if permission.Some? then permission.value else parent.permission;
    if Rank(p) > Rank(parent.permission) then Err(PermissionExceeds)
    else if !ScopeIsSubset(s, parent.scope) then Err(ScopeExceeds)
    else Ok(Token(id, parent.subject, s, p, parent.sessionId, now, parent.expiresAt, Some(parent.id)))
  }

  /** A token keeps the session it has; one without gets the new one. */
  function WithSession(token: Token, newSession: string): Token {
    if token.sessionId.Some? then token else token.(sessionId := Some(newSession))
  }

  class TokenStore {
    var tokens: map<string, Token>

    constructor ()
      ensures tokens == map[]
    {
      tokens := map[];
    }

    method CreateScopedToken(id: string, subject: string, scope: Scope, permission: Permission,
                             now: string, expiresAt: Option<string>) returns (t: Token)
      modifies this
      ensures t == Token(id, subject, scope, permission, None, now, expiresAt, None)
      ensures tokens == old(tokens)[id := t]
    {
      t := Token(id, subject, scope, permission, None, now, expiresAt, None);
      tokens := tokens[id := t];
    }

    method CreateChildToken(parent: Token, scope: Option<Scope>, permission: Option<Permission>,
                            id: string, now: string) returns (r: Result<Token, ChildError>)
      modifies this
      ensures r == Child(parent, scope, permission, id, now)
      ensures tokens == if r.Ok? then old(tokens)[id := r.value] else old(tokens)
      ensures r.Ok? ==> Grants(r.value, parent, scope, permission) && r.value.id == id && ReachesOnly(r.value, parent)
    {
      var childScope := if scope.Some? then scope.value else parent.scope;
      var childPermission := if permission.Some? then permission.value else parent.permission;
      if Rank(childPermission) > Rank(parent.permission) {
        return Err(PermissionExceeds);
      }
      if !ScopeIsSubset(childScope, parent.scope) {
        return Err(ScopeExceeds);
      }
      SubsetIsInclusion(childScope, parent.scope);
      var token := Token(id, parent.subject, childScope, childPermission, parent.sessionId, now,
                         parent.expiresAt, Some(parent.id));
      tokens := tokens[token.id := token];
      return Ok(token);
    }

    /** A session that is new to the token is recorded in the store as well. */
    method EnsureSession(token: Token, newSession: string) returns (session: string, token': Token)
      modifies this
      ensures token' == WithSession(token, newSession) && token'.sessionId == Some(session)
      ensures tokens == if token.sessionId.None? && token.id in old(tokens)
                        then old(tokens)[token.id := old(tokens)[token.id].(sessionId := Some(session))]
                        else old(tokens)
    {
      if token.sessionId.Some? {
        return token.sessionId.value, token;
      }
      session, token' := newSession, token.(sessionId := Some(newSession));
      if token.id in tokens {
        tokens := tokens[token.id := tokens[token.id].(sessionId := Some(newSession))];
      }
    }

    /** The token a spawned agent is given: asked for nothing narrower, the child is never refused. */
    method HandOn(parent: Token, id: string, now: string, newSession: string) returns (r: Result<Token, ChildError>)
      modifies this
      ensures r.Ok? && IsHandedOn(r.value, parent)
      ensures r.value.scope == parent.scope && r.value.permission == parent.permission
      ensures tokens == old(tokens)[id := r.value]
    {
      SubsetIsInclusion(parent.scope, parent.scope);
      r := CreateChildToken(parent, None, None, id, now);
      if r.Err? {
        return;
      }
      var child := r.value;
      assert IsChildOf(child, parent);
      var _, token := EnsureSession(child, newSession);
      return Ok(token);
    }
  }

  // ---- attenuation ----

  /** An agent is within a token's reach by its project and its session. */
  predicate Reaches(token: Token, project: string, agentSession: Option<string>) {
    ScopeIncludes(token.scope, project) && SessionMatches(token, agentSession)
  }

  /**
    The token is a child with what was asked for, where something was, and with what the parent has elsewhere:
    exactly those projects, that permission, and the parent's session, subject and expiry.
  */
  ghost predicate Grants(c: Token, parent: Token, scope: Option<Scope>, permission: Option<Permission>) {
    var wanted := if scope.Some? then scope.value else parent.scope;
    && (forall q :: ScopeIncludes(c.scope, q) <==> wanted.Global? || (wanted.Projects? && q in wanted.projects))
    && c.permission == (if permission.Some? then permission.value else parent.permission)
    && c.sessionId == parent.sessionId && c.subject == parent.subject && c.expiresAt == parent.expiresAt
    && c.parentId == Some(parent.id)
  }

  /**
    So it reaches an agent exactly when the scope asked for holds its project and, at the lowest permission,
    its session is the parent's.
  */
  lemma GrantedReach(c: Token, parent: Token, scope: Option<Scope>, permission: Option<Permission>,
                     project: string, session: Option<string>)
    requires Grants(c, parent, scope, permission)
    ensures var wanted := if scope.Some? then scope.value else parent.scope;
            var lowest := if permission.Some? then permission.value.Session? else parent.permission.Session?;
            Reaches(c, project, session) <==>
              && (wanted.Projects? ==> project in wanted.projects)
              && (lowest ==> session.Some? && session == parent.sessionId)
  {
    assert ScopeIncludes(c.scope, project) <==> Reaches(c.(permission := Admin), project, session);
  }

  /** Every child derived has what was asked for, and with it reaches just that. */
  lemma ChildIsAsAsked(parent: Token, scope: Option<Scope>, permission: Option<Permission>, id: string, now: string,
                       project: string, session: Option<string>)
    requires Child(parent, scope, permission, id, now).Ok?
    ensures var c, wanted := Child(parent, scope, permission, id, now).value,
                             if scope.Some? then scope.value else parent.scope;
            && Grants(c, parent, scope, permission) && c.id == id && c.issuedAt == now
            && (Reaches(c, project, session) <==>
                 && (wanted.Projects? ==> project in wanted.projects)
                 && (c.permission.Session? ==> session.Some? && session == parent.sessionId))
  {
    var c := Child(parent, scope, permission, id, now).value;
    GrantedReach(c, parent, scope, permission, project, session);
  }

  ghost predicate ReachesOnly(t: Token, root: Token) {
    forall project, session :: Reaches(t, project, session) ==> Reaches(root, project, session)
  }

  ghost predicate IsChildOf(c: Token, parent: Token) {
    exists scope, permission, id, now :: Child(parent, scope, permission, id, now) == Ok(c)
  }

  /** What a spawned agent is handed: a child that was given a session if it had none. */
  ghost predicate IsHandedOn(c: Token, parent: Token) {
    exists child, session :: IsChildOf(child, parent) && c == WithSession(child, session)
  }

  /** Each token after the first is derived from the one before it, handed on or as the bare child. */
  ghost predicate IsChain(ts: seq<Token>) {
    |ts| > 0 && forall i :: 0 < i < |ts| ==> IsChildOf(ts[i], ts[i - 1]) || IsHandedOn(ts[i], ts[i - 1])
  }

  ghost predicate IsBareChain(ts: seq<Token>) {
    IsChain(ts) && forall i :: 0 < i < |ts| ==> IsChildOf(ts[i], ts[i - 1])
  }

  ghost predicate Attenuates(t: Token, root: Token) {
    && Rank(t.permission) <= Rank(root.permission)
    && (forall p :: ScopeIncludes(t.scope, p) ==> ScopeIncludes(root.scope, p))
    && t.expiresAt == root.expiresAt && t.subject == root.subject
    && (root.sessionId.Some? ==> t.sessionId == root.sessionId)
  }

  lemma ChildAttenuates(c: Token, parent: Token)
    requires IsChildOf(c, parent)
    ensures Attenuates(c, parent) && c.sessionId == parent.sessionId && c.parentId == Some(parent.id)
  {
    SubsetIsInclusion(c.scope, parent.scope);
  }

  lemma DerivedAttenuates(c: Token, parent: Token)
    requires IsChildOf(c, parent) || IsHandedOn(c, parent)
    ensures Attenuates(c, parent) && c.parentId == Some(parent.id)
  {
    if IsChildOf(c, parent) {
      ChildAttenuates(c, parent);
    } else {
      var child, session :| IsChildOf(child, parent) && c == WithSession(child, session);
      ChildAttenuates(child, parent);
    }
  }

  /**
    Along any chain rank and projects shrink and a session, once there, stays; through bare children nothing
    gains one.
  */
  lemma {:induction false} ChainAttenuates(ts: seq<Token>)
    requires IsChain(ts)
    ensures Attenuates(ts[|ts| - 1], ts[0])
    ensures IsBareChain(ts) ==> ts[|ts| - 1].sessionId == ts[0].sessionId
    decreases |ts|
  {
    var n := |ts| - 1;
    if n > 0 {
      ChainAttenuates(ts[..n]);
      DerivedAttenuates(ts[n], ts[n - 1]);
      if IsBareChain(ts) { ChildAttenuates(ts[n], ts[n - 1]); }
    }
  }

  /** A token of the lowest permission that is bound to no session, and so reaches no agent at all. */
  predicate Unbound(t: Token) { t.permission.Session? && t.sessionId.None? }

  /** What attenuates a token reaches only what that token reaches, save when it got the session that one lacks. */
  lemma AttenuatedReach(t: Token, root: Token)
    requires Attenuates(t, root)
    ensures ReachesOnly(t, root) <==> !Unbound(root) || t.sessionId.None? || t.scope == Projects([])
  {
    if !Unbound(root) || t.sessionId.None? || t.scope == Projects([]) {
      forall p, s | Reaches(t, p, s) ensures Reaches(root, p, s) { assert ScopeIncludes(t.scope, p); }
    } else {
      var p := if t.scope.Global? then "" else t.scope.projects[0];
      assert t.permission.Session?;
      assert Reaches(t, p, t.sessionId) && !Reaches(root, p, t.sessionId);
    }
  }

  /**
    However long the chain, the last token reaches no agent the first one does not, exactly when the first
    one is bound to a session or needs none, or the last one still has no session, or no project is left.
  */
  lemma ChainNeverWidens(ts: seq<Token>)
    requires IsChain(ts)
    ensures var last := ts[|ts| - 1];
            ReachesOnly(last, ts[0]) <==> !Unbound(ts[0]) || last.sessionId.None? || last.scope == Projects([])
  {
    ChainAttenuates(ts);
    AttenuatedReach(ts[|ts| - 1], ts[0]);
  }

  /** Bare children never widen, whatever the first token is. */
  lemma BareChainNeverWidens(ts: seq<Token>)
    requires IsBareChain(ts)
    ensures ReachesOnly(ts[|ts| - 1], ts[0])
  {
    ChainAttenuates(ts);
    AttenuatedReach(ts[|ts| - 1], ts[0]);
  }

  /**
    One derivation: the token handed on reaches nothing more than its parent unless the parent is unbound and
    a project is left.
  */
  lemma HandingOnWidens(c: Token, parent: Token)
    requires IsHandedOn(c, parent)
    ensures ReachesOnly(c, parent) <==> !Unbound(parent) || c.scope == Projects([])
  {
    DerivedAttenuates(c, parent);
    AttenuatedReach(c, parent);
  }

  /** Giving the parent a session first, as the other spawn route does, derives the same tokens. */
  lemma SessionBeforeOrAfter(parent: Token, session: string, scope: Option<Scope>, permission: Option<Permission>,
                             id: string, now: string)
    ensures Child(WithSession(parent, session), scope, permission, id, now) ==
            match Child(parent, scope, permission, id, now)
            case Ok(c) => Ok(WithSession(c, session))
            case Err(e) => Err(e)
  {}

  /** A child is refused only when it would exceed its parent: in rank, or by some project. */
  lemma ChildSucceedsExactly(parent: Token, scope: Scope, permission: Permission, id: string, now: string)
    ensures Child(parent, Some(scope), Some(permission), id, now).Ok? <==>
            && Rank(permission) <= Rank(parent.permission)
            && forall p :: ScopeIncludes(scope, p) ==> ScopeIncludes(parent.scope, p)
  {
    SubsetIsInclusion(scope, parent.scope);
  }
}

/** The token service's own check, made before it mints a token without a parent. */
module TokenService {
  import opened Wrappers
  import opened Auth

  datatype ScopeRequest = ScopeRequest(global: bool, projects: seq<string>)

  datatype Status =
    | AdminRequired
    | HigherPermission
    | GlobalFromScoped
    | NotInScope(project: string)

  /** The first requested project the caller does not have. */
  function FirstOutside(requested: seq<string>, allowed: seq<string>): Option<string> {
    if requested == [] then None
    else if requested[0] !in allowed then Some(requested[0])
    else FirstOutside(requested[1..], allowed)
  }

  function RequestedScope(caller: Token, request: Option<ScopeRequest>): Scope {
    match request
    case None => caller.scope
    case Some(r) => if r.global then Global else if r.projects == [] then caller.scope else Projects(r.projects)
  }

  /** What a request is granted: its scope and permission. A permission the service does not know is the caller's. */
  function CreateToken(caller: Token, request: Option<ScopeRequest>, permission: Option<Permission>):
    Result<(Scope, Permission), Status>
  {
    if !PermissionAllows(caller.permission, Admin) then Err(AdminRequired) else
    var scope := RequestedScope(caller, request);
    var p := if permission.Some? then permission.value else caller.permission;
    if !PermissionAllows(caller.permission, p) then Err(HigherPermission) else
    match caller.scope
    case Global => Ok((scope, p))
    case Projects(allowed) =>
      match scope
      case Global => Err(GlobalFromScoped)
      case Projects(requested) =>
        var outside := FirstOutside(requested, allowed);
        if outside.Some? then Err(NotInScope(outside.value)) else Ok((scope, p))
  }

  lemma {:induction false} FirstOutsideIsFirst(requested: seq<string>, allowed: seq<string>)
    ensures match FirstOutside(requested, allowed)
            case None => forall p :: p in requested ==> p in allowed
            case Some(p) =>
              exists i :: 0 <= i < |requested| && requested[i] == p && p !in allowed
                          && forall j :: 0 <= j < i ==> requested[j] in allowed
  {
    if requested != [] {
      FirstOutsideIsFirst(requested[1..], allowed);
      if requested[0] in allowed && FirstOutside(requested, allowed).Some? {
        var i :| 0 <= i < |requested[1..]| && requested[1..][i] == FirstOutside(requested, allowed).value
                 && forall j :: 0 <= j < i ==> requested[1..][j] in allowed;
        assert requested[i + 1] == FirstOutside(requested, allowed).value;
        forall j | 0 <= j < i + 1 ensures requested[j] in allowed {
          if j > 0 { assert requested[j] == requested[1..][j - 1]; }
        }
      }
    }
  }

  /**
    For an admin caller the service accepts exactly the scopes `ScopeIsSubset` accepts, and nobody else gets a
    token.
  */
  lemma ServiceAgreesWithSubset(caller: Token, request: Option<ScopeRequest>, permission: Option<Permission>)
    ensures CreateToken(caller, request, permission).Ok? <==>
            caller.permission.Admin? && ScopeIsSubset(RequestedScope(caller, request), caller.scope)
    ensures CreateToken(caller, request, permission) != Err(HigherPermission)
    ensures CreateToken(caller, request, permission).Ok? ==>
              var (scope, p) := CreateToken(caller, request, permission).value;
              && Rank(p) <= Rank(caller.permission)
              && forall q :: ScopeIncludes(scope, q) ==> ScopeIncludes(caller.scope, q)
  {
    var scope := RequestedScope(caller, request);
    SubsetIsInclusion(scope, caller.scope);
    if caller.scope.Projects? && scope.Projects? {
      FirstOutsideIsFirst(scope.projects, caller.scope.projects);
    }
  }

  /**
    What is granted is what was asked for: those projects and that permission, the caller's where nothing was
    asked.
  */
  lemma ServiceGrantsAsAsked(caller: Token, request: Option<ScopeRequest>, permission: Option<Permission>, q: string)
    requires CreateToken(caller, request, permission).Ok?
    ensures var (scope, p) := CreateToken(caller, request, permission).value;
            && p == (if permission.Some? then permission.value else caller.permission)
            && (ScopeIncludes(scope, q) <==>
                 if request.None? || (!request.value.global && request.value.projects == [])
                 then ScopeIncludes(caller.scope, q)
                 else request.value.global || q in request.value.projects)
  {}

  const LOCAL_ADMIN := Token("localhost-admin", "localhost", Global, Admin, None, "", None, None)

  /** The same token with the lowest permission; the service mints one for the local administrator. */
  const UNBOUND := Token("root", "localhost", Global, Session, None, "", None, None)

  /** That token reaches no agent, but the token handed on from it reaches the agents of the session it is given. */
  lemma SpawningCanWiden(project: string)
    ensures CreateToken(LOCAL_ADMIN, None, Some(Session)) == Ok((UNBOUND.scope, UNBOUND.permission))
    ensures var child := Child(UNBOUND, None, None, "child", "").value;
            var handed := WithSession(child, "s");
            && IsHandedOn(handed, UNBOUND)
            && Reaches(handed, project, Some("s")) && !Reaches(UNBOUND, project, Some("s"))
  {
    assert IsChildOf(Child(UNBOUND, None, None, "child", "").value, UNBOUND);
  }
}
