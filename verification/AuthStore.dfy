/** Organisations, memberships, invitations and sessions as atomic steps over one store. */
module AuthStore {
  import opened Options
  import opened Sequences

  const IDLE_TIMEOUT_SECONDS := 1800
  const ABSOLUTE_TIMEOUT_SECONDS := 43200
  const INVITATION_TTL_SECONDS := 7 * 86400

  datatype Role = Owner | Admin | Operator | Reviewer | Auditor

  datatype Status = Active | Suspended | Invited

  datatype Principal = Principal(email: string, isActive: bool)

  datatype MemberKey = MemberKey(org: int, principal: int)

  datatype Membership = Membership(role: Role, status: Status, version: int)

  /** A session row. Its token hash is unique and is the key under which it is stored. */
  datatype UserSession = UserSession(
    id: int, principal: int, org: Option<int>, version: Option<int>, lastActive: int, idle: int, absolute: int,
    revokedAt: Option<int>)

  datatype Lifecycle = Pending | Accepted(at: int) | Revoked(at: int)

  datatype Invitation = Invitation(org: int, email: string, role: Role, state: Lifecycle, expires: int)

  datatype Db = Db(
    principals: map<int, Principal>, orgs: map<int, bool>, members: map<MemberKey, Membership>,
    sessions: map<int, UserSession>, invitations: map<int, Invitation>)

  datatype Failure = Unauthorized | Forbidden | OwnMembership | TargetNotFound | OwnersOnly | LastOwner | AlreadyMember
                   | BadInvitation | EmailMismatch | NoMembership | Integrity

  /** A transaction commits a new store or raises and leaves the old one. */
  datatype Outcome = Committed(db: Db) | Raised(why: Failure)

  // ----- Queries

  predicate Usable(s: UserSession, now: int) {
    s.revokedAt.None? && s.absolute > now && s.idle > now
  }

  predicate HasUsable(db: Db, token: int, now: int) {
    token in db.sessions && Usable(db.sessions[token], now)
  }

  /** The session behind a call: usable, and its principal active. */
  predicate Acts(db: Db, token: int, now: int) {
    HasUsable(db, token, now) && db.sessions[token].principal in db.principals
    && db.principals[db.sessions[token].principal].isActive
  }

  predicate ActsInOrg(db: Db, token: int, now: int) {
    Acts(db, token, now) && db.sessions[token].org.Some?
  }

  function ActorKey(db: Db, token: int): MemberKey
    requires token in db.sessions && db.sessions[token].org.Some?
  {
    MemberKey(db.sessions[token].org.value, db.sessions[token].principal)
  }

  predicate IsActive(db: Db, k: MemberKey) {
    k in db.members && db.members[k].status == Active
  }

  predicate IsActiveOwner(db: Db, k: MemberKey) {
    IsActive(db, k) && db.members[k].role == Owner
  }

  predicate Manages(db: Db, k: MemberKey) {
    IsActive(db, k) && (db.members[k].role == Owner || db.members[k].role == Admin)
  }

  function ActiveOwners(db: Db, org: int): set<MemberKey> {
    set k | k in db.members && k.org == org && IsActiveOwner(db, k)
  }

  function Min(a: int, b: int): int { if a <= b then a else b }

  // ----- Organisations and memberships

  function CreateOrganisation(db: Db, token: int, newOrg: int, now: int): Outcome {
    if !Acts(db, token, now) then Raised(Unauthorized)
    else
      var key := MemberKey(newOrg, db.sessions[token].principal);
      Committed(db.(orgs := db.orgs[newOrg := true], members := db.members[key := Membership(Owner, Active, 1)]))
  }

  /** Removing this member from the active owners would leave none. */
  predicate LastOwnerCheck(db: Db, target: MemberKey, role: Role, status: Status) {
    && IsActiveOwner(db, target) && (role != Owner || status != Active)
    && |ActiveOwners(db, target.org)| <= 1
  }

  /** Sessions of the member in the organisation, revoked. */
  predicate SessionOf(s: UserSession, k: MemberKey) {
    s.principal == k.principal && s.org == Some(k.org) && s.revokedAt.None?
  }

  function RevokeSessionsOf(sessions: map<int, UserSession>, k: MemberKey, now: int): map<int, UserSession> {
    map t | t in sessions :: if SessionOf(sessions[t], k) then sessions[t].(revokedAt := Some(now)) else sessions[t]
  }

  function MutateMembership(db: Db, token: int, target: int, role: Role, status: Status, now: int): Outcome {
    if !ActsInOrg(db, token, now) then Raised(Unauthorized)
    else
      var actor := ActorKey(db, token);
      var key := MemberKey(actor.org, target);
      if !Manages(db, actor) then Raised(Forbidden)
      else if actor.principal == target then Raised(OwnMembership)
      else if key !in db.members then Raised(TargetNotFound)
      else if db.members[actor].role == Admin && (db.members[key].role == Owner || role == Owner) then
        Raised(OwnersOnly)
      else if LastOwnerCheck(db, key, role, status) then Raised(LastOwner)
      else Committed(db.(members := db.members[key := Membership(role, status, db.members[key].version + 1)],
                         sessions := RevokeSessionsOf(db.sessions, key, now)))
  }

  // ----- Invitations

  /** The principal the email lookup finds: the first row that carries it. */
  predicate AlreadyActive(db: Db, org: int, email: string) {
    var ids := set p | p in db.principals && db.principals[p].email == email;
    ids != {} && IsActive(db, MemberKey(org, MinKey(ids)))
  }

  function CreateInvitation(db: Db, token: int, email: string, role: Role, newInvitation: int, now: int): Outcome {
    if !ActsInOrg(db, token, now) then Raised(Unauthorized)
    else
      var actor := ActorKey(db, token);
      if !Manages(db, actor) then Raised(Forbidden)
      else if db.members[actor].role == Admin && role == Owner then Raised(OwnersOnly)
      else if AlreadyActive(db, actor.org, email) then Raised(AlreadyMember)
      else Committed(db.(invitations := db.invitations[newInvitation :=
        Invitation(actor.org, email, role, Pending, now + INVITATION_TTL_SECONDS)]))
  }

  function AcceptInvitation(db: Db, token: int, invitation: int, now: int): Outcome {
    if !Acts(db, token, now) then Raised(Unauthorized)
    else if invitation !in db.invitations || !db.invitations[invitation].state.Pending?
         || now >= db.invitations[invitation].expires then
      Raised(BadInvitation)
    else
      var inv, p := db.invitations[invitation], db.sessions[token].principal;
      var key := MemberKey(inv.org, p);
      if db.principals[p].email != inv.email then Raised(EmailMismatch)
      else if key in db.members then Raised(Integrity)
      else Committed(db.(invitations := db.invitations[invitation := inv.(state := Accepted(now))],
                         members := db.members[key := Membership(inv.role, Active, 1)]))
  }

  function RevokeInvitation(db: Db, token: int, invitation: int, now: int): Outcome {
    if !ActsInOrg(db, token, now) then Raised(Unauthorized)
    else if !Manages(db, ActorKey(db, token)) then Raised(Forbidden)
    else if invitation !in db.invitations || db.invitations[invitation].org != ActorKey(db, token).org
            || !db.invitations[invitation].state.Pending? then Committed(db)
    else Committed(db.(invitations := db.invitations[invitation := db.invitations[invitation].(state := Revoked(now))]))
  }

  // ----- Sessions

  function CreateSession(db: Db, principal: int, org: Option<int>, newToken: int, newId: int, now: int): Outcome {
    if org.Some? && !IsActive(db, MemberKey(org.value, principal)) then Raised(NoMembership)
    else if principal !in db.principals || newToken in db.sessions then Raised(Integrity)
    else
      var version := if org.None? then None else Some(db.members[MemberKey(org.value, principal)].version);
      Committed(db.(sessions := db.sessions[newToken :=
        UserSession(newId, principal, org, version, now, now + IDLE_TIMEOUT_SECONDS,
                    now + ABSOLUTE_TIMEOUT_SECONDS, None)]))
  }

  /** A write is due when the last one is older than the throttle. */
  predicate TouchDue(db: Db, token: int, throttle: int, now: int) {
    HasUsable(db, token, now) && db.sessions[token].lastActive <= now - throttle
  }

  function Touched(s: UserSession, window: int, now: int): UserSession {
    s.(lastActive := now, idle := Min(now + window, s.absolute))
  }

  /** The table's ordering constraint refuses an idle expiry before the last activity. */
  function TouchSession(db: Db, token: int, window: int, throttle: int, now: int): Outcome {
    if !TouchDue(db, token, throttle, now) then Committed(db)
    else if Touched(db.sessions[token], window, now).idle < now then Raised(Integrity)
    else Committed(db.(sessions := db.sessions[token := Touched(db.sessions[token], window, now)]))
  }

  function RevokeSession(db: Db, token: int, now: int): Outcome {
    if token in db.sessions && db.sessions[token].revokedAt.None? then
      Committed(db.(sessions := db.sessions[token := db.sessions[token].(revokedAt := Some(now))]))
    else Committed(db)
  }

  function RevokeSessionsFor(sessions: map<int, UserSession>, principal: int, now: int): map<int, UserSession> {
    map t | t in sessions ::
      if sessions[t].principal == principal && sessions[t].revokedAt.None? then sessions[t].(revokedAt := Some(now))
      else sessions[t]
  }

  function RevokeAllSessions(db: Db, token: int, now: int): Outcome {
    if !HasUsable(db, token, now) then Committed(db)
    else Committed(db.(sessions := RevokeSessionsFor(db.sessions, db.sessions[token].principal, now)))
  }

  /** The session moves to the organisation under a new token; the old token is gone. */
  function SwitchOrganisation(db: Db, token: int, org: int, newToken: int, now: int): Outcome {
    if !HasUsable(db, token, now) then Raised(Unauthorized)
    else
      var s := db.sessions[token];
      var key := MemberKey(org, s.principal);
      if org !in db.orgs || !db.orgs[org] || !IsActive(db, key) then Raised(NoMembership)
      else if newToken in db.sessions then Raised(Integrity)
      else Committed(db.(sessions := (db.sessions - {token})[newToken :=
        s.(org := Some(org), version := Some(db.members[key].version), lastActive := now,
           idle := Min(now + IDLE_TIMEOUT_SECONDS, s.absolute))]))
  }

  // ----- The invariant

  ghost predicate HasActiveOwner(db: Db, org: int) {
    exists k: MemberKey :: k.org == org && IsActiveOwner(db, k)
  }

  /** What a session row promises. */
  ghost predicate SessionOk(db: Db, s: UserSession) {
    && s.lastActive <= s.idle <= s.absolute
    && (s.org.Some? <==> s.version.Some?)
    && (s.org.Some? && s.revokedAt.None? ==>
          IsActive(db, MemberKey(s.org.value, s.principal))
          && Some(db.members[MemberKey(s.org.value, s.principal)].version) == s.version)
  }

  ghost predicate Inv(db: Db) {
    && (forall o :: o in db.orgs ==> HasActiveOwner(db, o))
    && (forall k :: k in db.members ==> k.org in db.orgs && db.members[k].version > 0)
    && (forall t :: t in db.sessions ==> SessionOk(db, db.sessions[t]))
    && (forall t, u :: t in db.sessions && u in db.sessions && db.sessions[t].id == db.sessions[u].id ==> t == u)
    && (forall i :: i in db.invitations ==> db.invitations[i].org in db.orgs)
  }
}
