/** What every run of the control plane keeps. */
module AuthRuns {
  import opened Options
  import opened AuthStore

  /** One call, with the values the database and the random generators supply: new ids, new tokens, the
      clock. Sign-up and (de)activation of principals and organisations happen outside these calls. */
  datatype Step =
    | SignUp(id: int, email: string)
    | SetPrincipalActive(principal: int, active: bool)
    | SetOrgActive(org: int, active: bool)
    | NewOrg(token: int, newOrg: int, now: int)
    | Mutate(token: int, target: int, role: Role, status: Status, now: int)
    | Invite(token: int, email: string, role: Role, newInvitation: int, now: int)
    | Accept(token: int, invitation: int, now: int)
    | Withdraw(token: int, invitation: int, now: int)
    | Open(principal: int, inOrg: Option<int>, newToken: int, newId: int, now: int)
    | Touch(token: int, window: int, throttle: int, now: int)
    | Revoke(token: int, now: int)
    | RevokeAll(token: int, now: int)
    | Switch(token: int, to: int, newToken: int, now: int)

  function Result(db: Db, step: Step): Outcome {
    match step
    case SignUp(id, email) => Committed(db.(principals := db.principals[id := Principal(email, true)]))
    case SetPrincipalActive(p, active) =>
      Committed(if p in db.principals then db.(principals := db.principals[p := db.principals[p].(isActive := active)])
                else db)
    case SetOrgActive(o, active) => Committed(if o in db.orgs then db.(orgs := db.orgs[o := active]) else db)
    case NewOrg(token, newOrg, now) => CreateOrganisation(db, token, newOrg, now)
    case Mutate(token, target, role, status, now) => MutateMembership(db, token, target, role, status, now)
    case Invite(token, email, role, newInvitation, now) => CreateInvitation(db, token, email, role, newInvitation, now)
    case Accept(token, invitation, now) => AcceptInvitation(db, token, invitation, now)
    case Withdraw(token, invitation, now) => RevokeInvitation(db, token, invitation, now)
    case Open(principal, org, newToken, newId, now) => CreateSession(db, principal, org, newToken, newId, now)
    case Touch(token, window, throttle, now) => TouchSession(db, token, window, throttle, now)
    case Revoke(token, now) => RevokeSession(db, token, now)
    case RevokeAll(token, now) => RevokeAllSessions(db, token, now)
    case Switch(token, to, newToken, now) => SwitchOrganisation(db, token, to, newToken, now)
  }

  /** A call that raises is rolled back. */
  function After(db: Db, step: Step): Db {
    if Result(db, step).Committed? then Result(db, step).db else db
  }

  /** New row ids are new. */
  ghost predicate NewIds(db: Db, step: Step) {
    match step
    case SignUp(id, _) => id !in db.principals
    case NewOrg(_, newOrg, _) => newOrg !in db.orgs
    case Invite(_, _, _, newInvitation, _) => newInvitation !in db.invitations
    case Open(_, _, _, newId, _) => forall t :: t in db.sessions ==> db.sessions[t].id != newId
    case _ => true
  }

  // ----- The invariant is kept, call by call

  lemma NewOrgKeeps(db: Db, token: int, newOrg: int, now: int)
    requires Inv(db) && newOrg !in db.orgs && CreateOrganisation(db, token, newOrg, now).Committed?
    ensures Inv(CreateOrganisation(db, token, newOrg, now).db)
  {
    hide MutateMembership;
    var after := CreateOrganisation(db, token, newOrg, now).db;
    var key := MemberKey(newOrg, db.sessions[token].principal);
    assert IsActiveOwner(after, key);
    assert forall k :: k in db.members ==> k != key;
    OwnersStay(db, after);
    SessionsStay(db, after);
  }

  /** Owners that are still owners keep every organisation owned. */
  lemma OwnersStay(db: Db, after: Db)
    requires Inv(db) && forall k :: k in db.members ==> k in after.members && after.members[k] == db.members[k]
    ensures forall o :: o in db.orgs ==> HasActiveOwner(after, o)
  {
    forall o | o in db.orgs
      ensures HasActiveOwner(after, o)
    {
      var k: MemberKey :| k.org == o && IsActiveOwner(db, k);
      assert IsActiveOwner(after, k);
    }
  }

  /** Session rows stay good when memberships only grow. */
  lemma SessionsStay(db: Db, after: Db)
    requires Inv(db) && forall k :: k in db.members ==> k in after.members && after.members[k] == db.members[k]
    ensures forall t :: t in db.sessions ==> SessionOk(after, db.sessions[t])
  {
    forall t | t in db.sessions
      ensures SessionOk(after, db.sessions[t])
    {
      assert SessionOk(db, db.sessions[t]);
    }
  }

  /** The acting owner, who cannot be the target, still owns the organisation. */
  lemma MutateKeepsOwners(db: Db, token: int, target: int, role: Role, status: Status, now: int)
    requires Inv(db) && MutateMembership(db, token, target, role, status, now).Committed?
    ensures forall o :: o in db.orgs ==> HasActiveOwner(MutateMembership(db, token, target, role, status, now).db, o)
  {
    hide RevokeSessionsOf, LastOwnerCheck;
    var after := MutateMembership(db, token, target, role, status, now).db;
    var actor := ActorKey(db, token);
    var key := MemberKey(actor.org, target);
    forall o | o in db.orgs
      ensures HasActiveOwner(after, o)
    {
      var k: MemberKey :| k.org == o && IsActiveOwner(db, k);
      if k != key {
        assert IsActiveOwner(after, k);
      } else {
        assert IsActiveOwner(after, actor);
      }
    }
  }

  lemma MutateKeeps(db: Db, token: int, target: int, role: Role, status: Status, now: int)
    requires Inv(db) && MutateMembership(db, token, target, role, status, now).Committed?
    ensures Inv(MutateMembership(db, token, target, role, status, now).db)
  {
    hide LastOwnerCheck, HasActiveOwner;
    var after := MutateMembership(db, token, target, role, status, now).db;
    MutateKeepsOwners(db, token, target, role, status, now);
    forall t | t in after.sessions
      ensures SessionOk(after, after.sessions[t]) && after.sessions[t].id == db.sessions[t].id
    {
      assert SessionOk(db, db.sessions[t]);
    }
  }

  lemma AcceptKeeps(db: Db, token: int, invitation: int, now: int)
    requires Inv(db) && AcceptInvitation(db, token, invitation, now).Committed?
    ensures Inv(AcceptInvitation(db, token, invitation, now).db)
  {
    var after := AcceptInvitation(db, token, invitation, now).db;
    OwnersStay(db, after);
    SessionsStay(db, after);
  }

  lemma OpenKeeps(db: Db, principal: int, org: Option<int>, newToken: int, newId: int, now: int)
    requires Inv(db) && CreateSession(db, principal, org, newToken, newId, now).Committed?
    requires forall t :: t in db.sessions ==> db.sessions[t].id != newId
    ensures Inv(CreateSession(db, principal, org, newToken, newId, now).db)
  {
    var after := CreateSession(db, principal, org, newToken, newId, now).db;
    OwnersStay(db, after);
    SessionsStay(db, after);
  }

  lemma SwitchKeeps(db: Db, token: int, org: int, newToken: int, now: int)
    requires Inv(db) && SwitchOrganisation(db, token, org, newToken, now).Committed?
    ensures Inv(SwitchOrganisation(db, token, org, newToken, now).db)
  {
    var after := SwitchOrganisation(db, token, org, newToken, now).db;
    OwnersStay(db, after);
    SessionsStay(db, after);
    assert SessionOk(db, db.sessions[token]);
  }

  /** Replacing one session row, or revoking some, keeps the invariant. */
  lemma SessionsKeep(db: Db, after: Db)
    requires Inv(db) && after == db.(sessions := after.sessions) && after.sessions.Keys == db.sessions.Keys
    requires forall t :: t in db.sessions ==>
               after.sessions[t].id == db.sessions[t].id && SessionOk(db, after.sessions[t])
    ensures Inv(after)
  {
    hide SessionOk;
    OwnersStay(db, after);
    forall t | t in after.sessions
      ensures SessionOk(after, after.sessions[t])
    {
      SessionOkFrame(db, after, after.sessions[t]);
    }
  }

  lemma SessionOkFrame(db: Db, after: Db, s: UserSession)
    requires after.members == db.members && SessionOk(db, s)
    ensures SessionOk(after, s)
  {
  }

  /** Every call keeps the invariant. */
  lemma StepKeepsInv(db: Db, step: Step)
    requires Inv(db) && NewIds(db, step)
    ensures Inv(After(db, step))
  {
    hide Inv, CreateOrganisation, MutateMembership, AcceptInvitation, CreateSession, SwitchOrganisation,
         CreateInvitation, RevokeInvitation, TouchSession, RevokeSession, RevokeAllSessions;
    if Result(db, step).Committed? {
      match step {
        case NewOrg(token, newOrg, now) => NewOrgKeeps(db, token, newOrg, now);
        case Mutate(token, target, role, status, now) => MutateKeeps(db, token, target, role, status, now);
        case Accept(token, invitation, now) => AcceptKeeps(db, token, invitation, now);
        case Open(principal, org, newToken, newId, now) => OpenKeeps(db, principal, org, newToken, newId, now);
        case Switch(token, to, newToken, now) => SwitchKeeps(db, token, to, newToken, now);
        case Touch(_, _, _, _) => SessionStepKeeps(db, step);
        case Revoke(_, _) => SessionStepKeeps(db, step);
        case RevokeAll(_, _) => SessionStepKeeps(db, step);
        case _ => TableStepKeeps(db, step);
      }
    }
  }

  predicate IsSessionStep(step: Step) {
    step.Touch? || step.Revoke? || step.RevokeAll?
  }

  lemma SessionStepKeeps(db: Db, step: Step)
    requires Inv(db) && Result(db, step).Committed? && IsSessionStep(step)
    ensures Inv(After(db, step))
  {
    hide HasActiveOwner, SessionOk, After, Result, IsSessionStep;
    SessionStepLeaves(db, step);
    forall t | t in db.sessions
      ensures After(db, step).sessions[t].id == db.sessions[t].id && SessionOk(db, After(db, step).sessions[t])
    {
      RowStepOk(db, step, t);
    }
    SessionsKeep(db, After(db, step));
  }

  lemma SessionStepLeaves(db: Db, step: Step)
    requires Result(db, step).Committed? && IsSessionStep(step)
    ensures var after := After(db, step);
            after == db.(sessions := after.sessions) && after.sessions.Keys == db.sessions.Keys
  {
    hide Usable, Touched;
  }

  lemma RowStepOk(db: Db, step: Step, t: int)
    requires Result(db, step).Committed? && IsSessionStep(step) && t in db.sessions && SessionOk(db, db.sessions[t])
    ensures var after := After(db, step);
            t in after.sessions && after.sessions[t].id == db.sessions[t].id && SessionOk(db, after.sessions[t])
  {
    hide SessionOk, Usable;
    RowStaysOk(db, db.sessions[t]);
  }

  /** Revoking or touching a good row leaves a good row. */
  lemma RowStaysOk(db: Db, s: UserSession)
    requires SessionOk(db, s)
    ensures forall now :: SessionOk(db, s.(revokedAt := Some(now)))
    ensures forall window, now :: now <= Touched(s, window, now).idle ==> SessionOk(db, Touched(s, window, now))
  {
  }

  /** Calls that touch neither memberships nor sessions keep the invariant. */
  lemma TablesKeep(db: Db, after: Db)
    requires Inv(db) && after.members == db.members && after.sessions == db.sessions && after.orgs.Keys == db.orgs.Keys
    requires forall i :: i in after.invitations ==> after.invitations[i].org in db.orgs
    ensures Inv(after)
  {
    hide SessionOk;
    OwnersStay(db, after);
    forall t | t in after.sessions
      ensures SessionOk(after, after.sessions[t])
    {
      SessionOkFrame(db, after, after.sessions[t]);
    }
    assert forall o :: o in after.orgs.Keys <==> o in after.orgs;
    assert forall o :: o in db.orgs.Keys <==> o in db.orgs;
  }

  predicate IsTableStep(step: Step) {
    step.SignUp? || step.SetPrincipalActive? || step.SetOrgActive? || step.Invite? || step.Withdraw?
  }

  lemma TableStepKeeps(db: Db, step: Step)
    requires Inv(db) && Result(db, step).Committed? && IsTableStep(step)
    ensures Inv(After(db, step))
  {
    hide Inv, After, Result, IsTableStep;
    TableStepLeaves(db, step);
    InvitationsStay(db, step);
    TablesKeep(db, After(db, step));
  }

  lemma TableStepLeaves(db: Db, step: Step)
    requires Result(db, step).Committed? && IsTableStep(step)
    ensures var after := After(db, step);
            after.members == db.members && after.sessions == db.sessions && after.orgs.Keys == db.orgs.Keys
  {
    hide AlreadyActive, Acts, Manages;
  }

  lemma InvitationsStay(db: Db, step: Step)
    requires Inv(db) && Result(db, step).Committed? && IsTableStep(step)
    ensures forall i :: i in After(db, step).invitations ==> After(db, step).invitations[i].org in db.orgs
  {
    hide AlreadyActive, SessionOk, HasActiveOwner, Usable;
  }

  // ----- The last-owner refusal never fires

  /** The refusal is unreachable: whoever reaches it is another active owner. */
  lemma LastOwnerNeverRaised(db: Db, token: int, target: int, role: Role, status: Status, now: int)
    requires Inv(db)
    ensures MutateMembership(db, token, target, role, status, now) != Raised(LastOwner)
  {
    hide RevokeSessionsOf, HasActiveOwner, SessionOk;
    if ActsInOrg(db, token, now) {
      var actor := ActorKey(db, token);
      var key := MemberKey(actor.org, target);
      if IsActiveOwner(db, actor) && IsActiveOwner(db, key) && actor != key {
        assert {actor, key} <= ActiveOwners(db, actor.org);
        TwoOwners(ActiveOwners(db, actor.org), actor, key);
      }
    }
  }

  lemma TwoOwners(owners: set<MemberKey>, a: MemberKey, b: MemberKey)
    requires {a, b} <= owners && a != b
    ensures |owners| >= 2
  {
    assert owners == {a, b} + (owners - {a, b});
  }

  // ----- Whole runs

  /** The store with the tokens ever minted and the latest time seen. */
  datatype System = System(db: Db, minted: set<int>, clock: int)

  function Minted(step: Step): set<int> {
    match step
    case Open(_, _, newToken, _, _) => {newToken}
    case Switch(_, _, newToken, _) => {newToken}
    case _ => {}
  }

  function Time(step: Step, clock: int): int {
    if step.SignUp? || step.SetPrincipalActive? || step.SetOrgActive? then clock else step.now
  }

  /** New ids, tokens never minted before, and a clock that does not run back. */
  ghost predicate Allowed(sys: System, step: Step) {
    NewIds(sys.db, step) && Minted(step) !! sys.minted && Time(step, sys.clock) >= sys.clock
  }

  function Advance(sys: System, step: Step): System {
    System(After(sys.db, step), sys.minted + Minted(step), Time(step, sys.clock))
  }

  function RunFrom(sys: System, steps: seq<Step>): System {
    if steps == [] then sys else Advance(RunFrom(sys, steps[..|steps| - 1]), steps[|steps| - 1])
  }

  ghost predicate RunAllowed(sys: System, steps: seq<Step>) {
    forall i :: 0 <= i < |steps| ==> Allowed(RunFrom(sys, steps[..i]), steps[i])
  }

  ghost predicate SysInv(sys: System) {
    Inv(sys.db) && forall t :: t in sys.db.sessions ==> t in sys.minted
  }

  const EMPTY := System(Db(map[], map[], map[], map[], map[]), {}, 0)

  lemma EmptyIsGood()
    ensures SysInv(EMPTY)
  {
  }

  lemma TokensAreMinted(db: Db, step: Step, t: int)
    requires t in After(db, step).sessions
    ensures t in db.sessions || t in Minted(step)
  {
    hide Acts, Manages, LastOwnerCheck, AlreadyActive;
  }

  lemma AdvanceKeeps(sys: System, step: Step)
    requires SysInv(sys) && Allowed(sys, step)
    ensures SysInv(Advance(sys, step))
  {
    hide Inv, After, Minted;
    StepKeepsInv(sys.db, step);
    forall t | t in After(sys.db, step).sessions
      ensures t in sys.minted + Minted(step)
    {
      TokensAreMinted(sys.db, step, t);
    }
  }

  lemma RunPrefix(sys: System, steps: seq<Step>)
    requires steps != [] && RunAllowed(sys, steps)
    ensures RunAllowed(sys, steps[..|steps| - 1]) && Allowed(RunFrom(sys, steps[..|steps| - 1]), steps[|steps| - 1])
  {
    hide Allowed, RunFrom;
    var front := steps[..|steps| - 1];
    assert forall i :: 0 <= i < |front| ==> front[..i] == steps[..i] && front[i] == steps[i];
  }

  /** Every reachable state: each organisation has an active owner, each unrevoked session with an
      organisation names an active membership at its current version, and times stay ordered. */
  lemma {:induction false} RunKeepsInv(sys: System, steps: seq<Step>)
    requires SysInv(sys) && RunAllowed(sys, steps)
    ensures SysInv(RunFrom(sys, steps))
  {
    hide SysInv, Advance, Allowed;
    if steps != [] {
      RunPrefix(sys, steps);
      RunKeepsInv(sys, steps[..|steps| - 1]);
      AdvanceKeeps(RunFrom(sys, steps[..|steps| - 1]), steps[|steps| - 1]);
    }
  }

  /** From the empty store, in every reachable state: each organisation has an active owner, every
      unrevoked session matches its membership, and no membership call can meet the last-owner refusal. */
  lemma ReachableStatesAreSafe(steps: seq<Step>, org: int, token: int, target: int, role: Role, status: Status,
                               now: int)
    requires RunAllowed(EMPTY, steps)
    ensures var db := RunFrom(EMPTY, steps).db;
            && (org in db.orgs ==> HasActiveOwner(db, org))
            && (token in db.sessions ==> SessionOk(db, db.sessions[token]))
            && MutateMembership(db, token, target, role, status, now) != Raised(LastOwner)
  {
    hide RunAllowed, RunFrom, MutateMembership, HasActiveOwner, SessionOk;
    EmptyIsGood();
    RunKeepsInv(EMPTY, steps);
    LastOwnerNeverRaised(RunFrom(EMPTY, steps).db, token, target, role, status, now);
  }

  // ----- A dead token stays dead

  lemma DeadStep(sys: System, step: Step, t: int)
    requires SysInv(sys) && Allowed(sys, step) && t in sys.minted && !HasUsable(sys.db, t, sys.clock)
    ensures !HasUsable(After(sys.db, step), t, Time(step, sys.clock))
  {
    hide Inv, Manages, LastOwnerCheck, AlreadyActive;
  }

  /** A token that was rotated away, revoked or left to expire never resolves as live again. */
  lemma {:induction false} DeadStaysDead(sys: System, steps: seq<Step>, t: int)
    requires SysInv(sys) && RunAllowed(sys, steps) && t in sys.minted && !HasUsable(sys.db, t, sys.clock)
    ensures var end := RunFrom(sys, steps); t in end.minted && !HasUsable(end.db, t, end.clock)
  {
    hide SysInv, Allowed, HasUsable, After, Minted, Time;
    if steps != [] {
      var front := steps[..|steps| - 1];
      RunPrefix(sys, steps);
      RunKeepsInv(sys, front);
      DeadStaysDead(sys, front, t);
      DeadStep(RunFrom(sys, front), steps[|steps| - 1], t);
    }
  }

  /** Rotation kills the old token at once; revocation kills it at any time. */
  lemma RotatedOrRevokedIsDead(db: Db, token: int, org: int, newToken: int, now: int, later: int)
    requires newToken != token
    ensures SwitchOrganisation(db, token, org, newToken, now).Committed? ==>
              !HasUsable(SwitchOrganisation(db, token, org, newToken, now).db, token, later)
    ensures !HasUsable(RevokeSession(db, token, now).db, token, later)
    ensures HasUsable(db, token, now) ==>
              forall t :: t in db.sessions && db.sessions[t].principal == db.sessions[token].principal ==>
              !HasUsable(RevokeAllSessions(db, token, now).db, t, later)
  {
  }

  // ----- What later states keep of earlier ones

  /** Row by row: sessions keep their owner and absolute expiry, and a revoked one never changes; a
      membership changes only with a higher version; a closed invitation stays as it is. */
  ghost predicate Follows(a: Db, b: Db) {
    && (forall t :: t in a.sessions ==> Continues(a.sessions[t], t, b))
    && (forall k :: k in a.members ==> k in b.members && NewerOrSame(a.members[k], b.members[k]))
    && (forall i :: i in a.invitations ==> i in b.invitations && SameInvitation(a.invitations[i], b.invitations[i]))
    && (forall o :: o in a.orgs ==> o in b.orgs)
  }

  /** The session of token `t` lives on in `b`; a revoked one unchanged under its token. */
  ghost predicate Continues(s: UserSession, t: int, b: Db) {
    exists u :: ContinuesAs(s, t, b, u)
  }

  ghost predicate ContinuesAs(s: UserSession, t: int, b: Db, u: int) {
    u in b.sessions && SameSession(s, b.sessions[u]) && (s.revokedAt.Some? ==> u == t && b.sessions[t] == s)
  }

  predicate SameSession(s: UserSession, u: UserSession) {
    s.id == u.id && s.principal == u.principal && s.absolute == u.absolute
  }

  predicate NewerOrSame(m: Membership, n: Membership) { m == n || m.version < n.version }

  predicate SameInvitation(i: Invitation, j: Invitation) {
    i.org == j.org && i.email == j.email && i.role == j.role && i.expires == j.expires
    && (!i.state.Pending? ==> j.state == i.state)
  }

  lemma FollowsTransitive(a: Db, b: Db, c: Db)
    requires Follows(a, b) && Follows(b, c)
    ensures Follows(a, c)
  {
    forall t | t in a.sessions
      ensures Continues(a.sessions[t], t, c)
    {
      var u :| ContinuesAs(a.sessions[t], t, b, u);
      var v :| ContinuesAs(b.sessions[u], u, c, v);
      assert ContinuesAs(a.sessions[t], t, c, v);
    }
  }

  /** A rotated session lives on under its new token. */
  lemma FollowsSwitch(db: Db, token: int, org: int, newToken: int, now: int, t: int)
    requires t in db.sessions && SwitchOrganisation(db, token, org, newToken, now).Committed?
    ensures var after := SwitchOrganisation(db, token, org, newToken, now).db;
            Continues(db.sessions[t], t, after)
  {
    var after := SwitchOrganisation(db, token, org, newToken, now).db;
    var u := if t == token then newToken else t;
    assert ContinuesAs(db.sessions[t], t, after, u);
  }

  /** Every other call leaves each session under its token. */
  lemma FollowsInPlace(db: Db, step: Step, t: int)
    requires t in db.sessions && !step.Switch?
    ensures ContinuesAs(db.sessions[t], t, After(db, step), t)
  {
    hide Manages, LastOwnerCheck, AlreadyActive, Acts;
  }

  lemma FollowsSessions(db: Db, step: Step, t: int)
    requires t in db.sessions
    ensures Continues(db.sessions[t], t, After(db, step))
  {
    hide SwitchOrganisation;
    if step.Switch? {
      if Result(db, step).Committed? {
        FollowsSwitch(db, step.token, step.to, step.newToken, step.now, t);
      } else {
        assert ContinuesAs(db.sessions[t], t, db, t);
      }
    } else {
      FollowsInPlace(db, step, t);
    }
  }

  lemma FollowsMembers(db: Db, step: Step)
    requires Inv(db) && NewIds(db, step)
    ensures var after := After(db, step);
            forall k :: k in db.members ==> k in after.members && NewerOrSame(db.members[k], after.members[k])
  {
    hide Inv, AcceptInvitation, MutateMembership, CreateOrganisation, NewIds, NewerOrSame;
    if step.NewOrg? || step.Mutate? || step.Accept? {
      MemberStepFollows(db, step);
    } else {
      MembersUntouched(db, step);
      SameIsSame();
    }
  }

  lemma SameIsSame()
    ensures forall m :: NewerOrSame(m, m)
  {
  }

  lemma MembersUntouched(db: Db, step: Step)
    requires !step.NewOrg? && !step.Mutate? && !step.Accept?
    ensures After(db, step).members == db.members
  {
    hide AlreadyActive, Acts, Manages, RevokeSessionsFor, Touched;
  }

  lemma MemberStepFollows(db: Db, step: Step)
    requires Inv(db) && NewIds(db, step) && (step.NewOrg? || step.Mutate? || step.Accept?)
    ensures var after := After(db, step);
            forall k :: k in db.members ==> k in after.members && NewerOrSame(db.members[k], after.members[k])
  {
    hide LastOwnerCheck, SessionOk, HasActiveOwner, Usable, RevokeSessionsOf;
  }

  lemma FollowsInvitations(db: Db, step: Step)
    requires NewIds(db, step)
    ensures var after := After(db, step);
            && (forall i :: i in db.invitations ==>
                  i in after.invitations && SameInvitation(db.invitations[i], after.invitations[i]))
            && (forall o :: o in db.orgs ==> o in after.orgs)
  {
    hide LastOwnerCheck, AlreadyActive, Usable, RevokeSessionsOf, RevokeSessionsFor, Manages;
  }

  lemma StepFollows(db: Db, step: Step)
    requires Inv(db) && NewIds(db, step)
    ensures Follows(db, After(db, step))
  {
    hide Inv, NewIds, After, Continues, NewerOrSame, SameInvitation;
    FollowsMembers(db, step);
    FollowsInvitations(db, step);
    forall t | t in db.sessions
      ensures Continues(db.sessions[t], t, After(db, step))
    {
      FollowsSessions(db, step, t);
    }
  }

  /** Over any run: absolute expiry never moves, versions only rise with a change, closed invitations stay closed. */
  lemma {:induction false} RunFollows(sys: System, steps: seq<Step>)
    requires SysInv(sys) && RunAllowed(sys, steps)
    ensures Follows(sys.db, RunFrom(sys, steps).db)
  {
    hide SysInv, Allowed, After, Follows;
    if steps == [] {
      FollowsItself(sys.db);
    } else {
      var front, last := steps[..|steps| - 1], steps[|steps| - 1];
      RunPrefix(sys, steps);
      RunKeepsInv(sys, front);
      RunFollows(sys, front);
      AllowedStep(RunFrom(sys, front), last);
      StepFollows(RunFrom(sys, front).db, last);
      FollowsTransitive(sys.db, RunFrom(sys, front).db, RunFrom(sys, steps).db);
    }
  }

  lemma FollowsItself(db: Db)
    ensures Follows(db, db)
  {
    forall t | t in db.sessions
      ensures Continues(db.sessions[t], t, db)
    {
      assert ContinuesAs(db.sessions[t], t, db, t);
    }
  }

  lemma AllowedStep(sys: System, step: Step)
    requires SysInv(sys) && Allowed(sys, step)
    ensures Inv(sys.db) && NewIds(sys.db, step)
  {
  }

  // ----- Lookup and touch

  datatype SessionInfo = SessionInfo(isRevoked: bool, isStale: bool, role: Option<Role>)

  /** What a token resolves to; nothing when there is no such session. */
  function LookupSession(db: Db, token: int, now: int): Option<SessionInfo> {
    if token !in db.sessions || db.sessions[token].principal !in db.principals then None
    else
      var s := db.sessions[token];
      var revoked := !Usable(s, now) || !db.principals[s.principal].isActive;
      if s.org.None? then Some(SessionInfo(revoked, false, None))
      else
        var key := MemberKey(s.org.value, s.principal);
        if s.org.value !in db.orgs || !db.orgs[s.org.value] || !IsActive(db, key)
           || Some(db.members[key].version) != s.version then
          Some(SessionInfo(revoked, true, None))
        else Some(SessionInfo(revoked, false, Some(db.members[key].role)))
  }

  /** A known token of a known principal resolves as live exactly when it may act, and names a role exactly
      when its membership is active, current and in an active organisation. */
  lemma ResolvesAsLiveExactlyWhen(db: Db, token: int, now: int)
    ensures var info := LookupSession(db, token, now);
            && (info.Some? <==> token in db.sessions && db.sessions[token].principal in db.principals)
            && (info.Some? ==>
                  && (!info.value.isRevoked <==> Acts(db, token, now))
                  && (info.value.role.Some? <==> db.sessions[token].org.Some? && !info.value.isStale)
                  && (info.value.role.Some? ==>
                        var s := db.sessions[token];
                        var key := MemberKey(s.org.value, s.principal);
                        && s.org.value in db.orgs && db.orgs[s.org.value] && IsActive(db, key)
                        && s.version == Some(db.members[key].version) && info.value.role.value == db.members[key].role))
  {
  }

  /** In every reachable state a session that is not revoked is stale exactly when its organisation is inactive. */
  lemma StaleExactlyWhenOrgInactive(db: Db, token: int, now: int)
    requires Inv(db) && LookupSession(db, token, now).Some? && !LookupSession(db, token, now).value.isRevoked
    ensures var info, s := LookupSession(db, token, now).value, db.sessions[token];
            && HasUsable(db, token, now)
            && (info.isStale <==> s.org.Some? && !(s.org.value in db.orgs && db.orgs[s.org.value]))
            && (s.org.Some? && !info.isStale ==>
                  info.role == Some(db.members[MemberKey(s.org.value, s.principal)].role))
            && (s.org.None? || info.isStale ==> info.role == None)
  {
    hide HasActiveOwner;
    assert SessionOk(db, db.sessions[token]);
    assert Usable(db.sessions[token], now);
  }

  /** A touch is refused exactly when one is due and the idle window is negative; it never moves the
      absolute expiry, and never lets the idle expiry pass it. */
  lemma TouchRefusedExactlyWhen(db: Db, token: int, window: int, throttle: int, now: int)
    ensures TouchSession(db, token, window, throttle, now) == Raised(Integrity) <==>
              TouchDue(db, token, throttle, now) && window < 0
    ensures TouchSession(db, token, window, throttle, now).Committed? && token in db.sessions ==>
              token in TouchSession(db, token, window, throttle, now).db.sessions
              && TouchSession(db, token, window, throttle, now).db.sessions[token].absolute
                   == db.sessions[token].absolute
  {
  }

  // ----- Where owners come from

  /** The acting session's principal is an active owner of the organisation. */
  ghost predicate ByOwner(db: Db, token: int, org: int) {
    token in db.sessions && db.sessions[token].org == Some(org)
    && IsActiveOwner(db, MemberKey(org, db.sessions[token].principal))
  }

  /** The call founds the organisation, or an active owner assigns the role, or the principal accepts an
      invitation to it. */
  ghost predicate MakesOwner(db: Db, step: Step, k: MemberKey) {
    || (step.NewOrg? && step.newOrg == k.org && step.token in db.sessions
        && db.sessions[step.token].principal == k.principal)
    || (step.Mutate? && step.role == Owner && step.target == k.principal && ByOwner(db, step.token, k.org))
    || (step.Accept? && step.token in db.sessions && db.sessions[step.token].principal == k.principal
        && step.invitation in db.invitations
        && db.invitations[step.invitation].role == Owner && db.invitations[step.invitation].org == k.org)
  }

  predicate IsOwner(db: Db, k: MemberKey) {
    k in db.members && db.members[k].role == Owner
  }

  lemma BecomesOwner(db: Db, step: Step, k: MemberKey)
    requires IsOwner(After(db, step), k) && !IsOwner(db, k)
    ensures MakesOwner(db, step, k)
  {
    hide AlreadyActive, LastOwnerCheck, Usable, RevokeSessionsOf, RevokeSessionsFor, Touched;
    if !(step.NewOrg? || step.Mutate? || step.Accept?) {
      MembersUntouched(db, step);
    }
  }

  /** An owner invitation is created by an active owner's call. */
  ghost predicate InvitesOwner(db: Db, step: Step, i: int) {
    step.Invite? && step.newInvitation == i && step.role == Owner && exists org :: ByOwner(db, step.token, org)
  }

  predicate IsOwnerInvitation(db: Db, i: int) {
    i in db.invitations && db.invitations[i].role == Owner
  }

  lemma BecomesOwnerInvitation(db: Db, step: Step, i: int)
    requires IsOwnerInvitation(After(db, step), i) && !IsOwnerInvitation(db, i)
    ensures InvitesOwner(db, step, i)
    ensures ByOwner(db, step.token, After(db, step).invitations[i].org)
  {
    hide AlreadyActive, LastOwnerCheck, Usable, RevokeSessionsOf, RevokeSessionsFor, Touched;
    if step.Invite? && Result(db, step).Committed? {
      assert ByOwner(db, step.token, db.sessions[step.token].org.value);
    }
  }

  /** Over any run from the empty store: whoever is an owner was made one by founding the organisation, by an
      active owner's assignment or by an owner invitation, and an active owner's call created each of those. */
  lemma {:induction false} OwnersComeFromOwners(steps: seq<Step>, k: MemberKey, i: int)
    ensures IsOwner(RunFrom(EMPTY, steps).db, k) ==>
              exists n :: 0 <= n < |steps| && MakesOwner(RunFrom(EMPTY, steps[..n]).db, steps[n], k)
    ensures IsOwnerInvitation(RunFrom(EMPTY, steps).db, i) ==>
              exists n :: 0 <= n < |steps| && InvitesOwner(RunFrom(EMPTY, steps[..n]).db, steps[n], i)
  {
    hide After, MakesOwner, InvitesOwner, IsOwner, IsOwnerInvitation, Minted, Time;
    if steps == [] {
      NobodyYet(k, i);
    } else {
      var m := |steps| - 1;
      var front, before := steps[..m], RunFrom(EMPTY, steps[..m]).db;
      OwnersComeFromOwners(front, k, i);
      assert forall n :: 0 <= n < m ==> front[..n] == steps[..n] && front[n] == steps[n];
      if IsOwner(RunFrom(EMPTY, steps).db, k) {
        if IsOwner(before, k) {
          var n :| 0 <= n < m && MakesOwner(RunFrom(EMPTY, front[..n]).db, front[n], k);
          assert MakesOwner(RunFrom(EMPTY, steps[..n]).db, steps[n], k);
        } else {
          BecomesOwner(before, steps[m], k);
        }
      }
      if IsOwnerInvitation(RunFrom(EMPTY, steps).db, i) {
        if IsOwnerInvitation(before, i) {
          var n :| 0 <= n < m && InvitesOwner(RunFrom(EMPTY, front[..n]).db, front[n], i);
          assert InvitesOwner(RunFrom(EMPTY, steps[..n]).db, steps[n], i);
        } else {
          BecomesOwnerInvitation(before, steps[m], i);
        }
      }
    }
  }

  lemma NobodyYet(k: MemberKey, i: int)
    ensures !IsOwner(EMPTY.db, k) && !IsOwnerInvitation(EMPTY.db, i)
  {
  }
}
