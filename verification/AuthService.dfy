/** The control-plane calls as they update the tables in place. */
module AuthService {
  import opened Options
  import opened Sequences
  import opened AuthStore
  import opened AuthRuns

  datatype Reply = Ok | Failed(why: Failure)

  /** The call did what the transaction says: committed it, or raised and left everything alone. */
  ghost predicate Did(before: Db, after: Db, r: Reply, step: Step) {
    && after == After(before, step)
    && r == if Result(before, step).Committed? then Ok else Failed(Result(before, step).why)
  }

  /** What every call keeps of the store it finds. */
  ghost predicate Kept(before: Db, after: Db) {
    Inv(after) && Follows(before, after)
  }

  lemma StepKeeps(db: Db, step: Step)
    requires Inv(db) && NewIds(db, step)
    ensures Kept(db, After(db, step))
  {
    hide Inv, Follows, NewIds, After;
    StepKeepsInv(db, step);
    StepFollows(db, step);
  }

  // ----- Who may make each call

  /** The token is of a live session of an active principal in the organisation. */
  predicate ActsAs(db: Db, token: int, now: int, caller: MemberKey) {
    Acts(db, token, now) && db.sessions[token].org == Some(caller.org)
    && db.sessions[token].principal == caller.principal
  }

  /** Active owners and active administrators manage; only owners touch ownership. */
  predicate MayAssign(db: Db, caller: MemberKey, ownership: bool) {
    && caller in db.members && db.members[caller].status == Active
    && (db.members[caller].role == Owner || (db.members[caller].role == Admin && !ownership))
  }

  /** Another existing member, changed by someone who may: an owner when ownership is given or taken. */
  ghost predicate MayMutate(db: Db, token: int, target: int, role: Role, now: int) {
    exists caller ::
      && ActsAs(db, token, now, caller) && target != caller.principal
      && var key := MemberKey(caller.org, target);
         key in db.members && MayAssign(db, caller, db.members[key].role == Owner || role == Owner)
  }

  lemma MutatesExactlyWhen(db: Db, token: int, target: int, role: Role, status: Status, now: int)
    requires Inv(db)
    ensures MutateMembership(db, token, target, role, status, now).Committed? <==>
              MayMutate(db, token, target, role, now)
  {
    hide Inv, RevokeSessionsOf, Acts, LastOwnerCheck;
    LastOwnerNeverRaised(db, token, target, role, status, now);
    ActorKnown(db, token, now);
    if ActsInOrg(db, token, now) {
      assert ActsAs(db, token, now, ActorKey(db, token));
    }
  }

  /** An invitation comes from someone who may give the role, to someone not already active. */
  ghost predicate MayInvite(db: Db, token: int, email: string, role: Role, now: int) {
    exists caller ::
      ActsAs(db, token, now, caller) && MayAssign(db, caller, role == Owner) && !AlreadyActive(db, caller.org, email)
  }

  lemma InvitesExactlyWhen(db: Db, token: int, email: string, role: Role, newInvitation: int, now: int)
    ensures CreateInvitation(db, token, email, role, newInvitation, now).Committed? <==>
              MayInvite(db, token, email, role, now)
  {
    hide Acts, AlreadyActive;
    ActorKnown(db, token, now);
    if ActsInOrg(db, token, now) {
      assert ActsAs(db, token, now, ActorKey(db, token));
    }
  }

  /** The invited person, not yet a member, while the invitation is open. */
  predicate MayAccept(db: Db, token: int, invitation: int, now: int) {
    && invitation in db.invitations && db.invitations[invitation].state == Pending
    && now < db.invitations[invitation].expires
    && MayJoin(db, token, now, db.invitations[invitation].email, db.invitations[invitation].org)
  }

  ghost predicate MayWithdraw(db: Db, token: int, now: int) {
    exists caller :: ActsAs(db, token, now, caller) && MayAssign(db, caller, false)
  }

  lemma WithdrawsExactlyWhen(db: Db, token: int, invitation: int, now: int)
    ensures RevokeInvitation(db, token, invitation, now).Committed? <==> MayWithdraw(db, token, now)
  {
    hide Acts;
    ActorKnown(db, token, now);
    if ActsInOrg(db, token, now) {
      assert ActsAs(db, token, now, ActorKey(db, token));
    }
  }

  predicate ActiveMember(db: Db, org: int, principal: int) {
    MemberKey(org, principal) in db.members && db.members[MemberKey(org, principal)].status == Active
  }

  predicate MayOpen(db: Db, principal: int, org: Option<int>, newToken: int) {
    principal in db.principals && newToken !in db.sessions && (org.Some? ==> ActiveMember(db, org.value, principal))
  }

  predicate MaySwitch(db: Db, token: int, org: int, newToken: int, now: int) {
    && HasUsable(db, token, now) && newToken !in db.sessions
    && org in db.orgs && db.orgs[org] && ActiveMember(db, org, db.sessions[token].principal)
  }

  // ----- What each call means to its caller

  /** Nobody else's token is touched. */
  ghost predicate SameElsewhere(before: Db, after: Db, tokens: set<int>) {
    forall u, at :: u !in tokens ==> (HasUsable(after, u, at) <==> HasUsable(before, u, at))
  }

  /** The token is live exactly before the given time. */
  ghost predicate LiveBefore(db: Db, token: int, end: int) {
    forall at :: HasUsable(db, token, at) <==> at < end
  }

  ghost predicate Dead(db: Db, token: int) {
    forall at :: !HasUsable(db, token, at)
  }

  /** Nobody can accept the invitation, ever. */
  ghost predicate Closed(db: Db, invitation: int) {
    forall u, at :: AcceptInvitation(db, u, invitation, at).Raised?
  }

  /** The tables agree everywhere else. */
  ghost predicate SameBut<K(!new), V>(a: map<K, V>, b: map<K, V>, keys: set<K>) {
    forall k :: k !in keys ==> (k in a <==> k in b) && (k in a && k in b ==> a[k] == b[k])
  }

  /** The caller alone owns the new organisation. */
  ghost predicate Founded(before: Db, after: Db, token: int, newOrg: int) {
    && newOrg in after.orgs && after.orgs[newOrg] && token in before.sessions
    && ActiveOwners(after, newOrg) == {MemberKey(newOrg, before.sessions[token].principal)}
    && SameBut(before.orgs, after.orgs, {newOrg})
    && SameBut(before.members, after.members, {MemberKey(newOrg, before.sessions[token].principal)})
  }

  lemma NewOrgFounds(db: Db, token: int, newOrg: int, now: int)
    requires Inv(db) && newOrg !in db.orgs && Acts(db, token, now)
    ensures Founded(db, After(db, NewOrg(token, newOrg, now)), token, newOrg)
  {
    hide SessionOk, HasActiveOwner;
    var after := After(db, NewOrg(token, newOrg, now));
    var key := MemberKey(newOrg, db.sessions[token].principal);
    assert forall k :: k in ActiveOwners(after, newOrg) <==> k == key;
  }

  /** Every session of the member in the organisation is dead, and the membership is one version on. */
  ghost predicate Resigned(before: Db, after: Db, key: MemberKey, role: Role, status: Status) {
    && key in before.members && key in after.members
    && after.members[key] == Membership(role, status, before.members[key].version + 1)
    && (forall t :: t in after.sessions && OfMember(after.sessions[t], key) ==> Dead(after, t))
    && SameBut(before.members, after.members, {key})
    && SameBut(before.sessions, after.sessions, set t | t in before.sessions && OfMember(before.sessions[t], key))
  }

  predicate OfMember(s: UserSession, key: MemberKey) {
    s.principal == key.principal && s.org == Some(key.org)
  }

  lemma MutateResigns(db: Db, token: int, target: int, role: Role, status: Status, now: int)
    requires MutateMembership(db, token, target, role, status, now).Committed?
    ensures ActsInOrg(db, token, now)
    ensures Resigned(db, After(db, Mutate(token, target, role, status, now)),
                     MemberKey(ActorKey(db, token).org, target), role, status)
  {
    hide Acts, LastOwnerCheck, ActiveOwners, Dead, SameBut;
    ActorKnown(db, token, now);
    var after, key := After(db, Mutate(token, target, role, status, now)), MemberKey(ActorKey(db, token).org, target);
    forall t | t in after.sessions && OfMember(after.sessions[t], key)
      ensures Dead(after, t)
    {
      RevokedIsDead(after, t);
    }
    OthersUntouched(db.members, after.members, db.sessions, after.sessions, key, now);
  }

  lemma RevokedIsDead(db: Db, t: int)
    requires t in db.sessions && db.sessions[t].revokedAt.Some?
    ensures Dead(db, t)
  {
  }

  lemma OthersUntouched(members: map<MemberKey, Membership>, members': map<MemberKey, Membership>,
                        sessions: map<int, UserSession>, sessions': map<int, UserSession>, key: MemberKey, now: int)
    requires sessions' == RevokeSessionsOf(sessions, key, now) && key in members && key in members'
    requires members' == members[key := members'[key]]
    ensures SameBut(members, members', {key})
    ensures SameBut(sessions, sessions', set t | t in sessions && OfMember(sessions[t], key))
  {
    var own := set t | t in sessions && OfMember(sessions[t], key);
    forall t | t !in own
      ensures t in sessions <==> t in sessions'
      ensures t in sessions ==> sessions'[t] == sessions[t]
    {
      assert t in sessions ==> !OfMember(sessions[t], key) && !SessionOf(sessions[t], key);
    }
  }

  /** Exactly an active principal with that email who is not yet a member can accept, until the
      invitation expires, and gets the invited role; owners are invited by owners only. */
  ghost predicate Offered(before: Db, after: Db, token: int, email: string, role: Role, invitation: int, now: int) {
    && token in before.sessions && before.sessions[token].org.Some?
    && (role == Owner ==> IsActiveOwner(before, ActorKey(before, token)))
    && SameBut(before.invitations, after.invitations, {invitation})
    && forall u, at ::
         var accepted := AcceptInvitation(after, u, invitation, at);
         && (accepted.Committed? <==>
               MayJoin(after, u, at, email, ActorKey(before, token).org) && at < now + INVITATION_TTL_SECONDS)
         && (accepted.Committed? ==>
               IsMember(accepted.db, MemberKey(ActorKey(before, token).org, after.sessions[u].principal),
                        Membership(role, Active, 1)))
  }

  predicate MayJoin(db: Db, token: int, now: int, email: string, org: int) {
    Acts(db, token, now) && db.principals[db.sessions[token].principal].email == email
    && MemberKey(org, db.sessions[token].principal) !in db.members
  }

  predicate IsMember(db: Db, key: MemberKey, m: Membership) {
    key in db.members && db.members[key] == m
  }

  lemma InviteOffers(db: Db, token: int, email: string, role: Role, newInvitation: int, now: int)
    requires CreateInvitation(db, token, email, role, newInvitation, now).Committed?
    ensures Offered(db, After(db, Invite(token, email, role, newInvitation, now)), token, email, role, newInvitation,
                    now)
  {
    hide AlreadyActive, Usable;
  }

  /** The caller is the invited person and now a member in the invited role; the invitation is spent. */
  ghost predicate Joined(before: Db, after: Db, token: int, invitation: int) {
    && token in before.sessions && before.sessions[token].principal in before.principals
    && invitation in before.invitations
    && var inv, p := before.invitations[invitation], before.sessions[token].principal;
       && before.principals[p].email == inv.email && MemberKey(inv.org, p) !in before.members
       && IsMember(after, MemberKey(inv.org, p), Membership(inv.role, Active, 1)) && Closed(after, invitation)
       && SameBut(before.members, after.members, {MemberKey(inv.org, p)})
       && SameBut(before.invitations, after.invitations, {invitation})
  }

  lemma AcceptJoins(db: Db, token: int, invitation: int, now: int)
    requires AcceptInvitation(db, token, invitation, now).Committed?
    ensures Joined(db, After(db, Accept(token, invitation, now)), token, invitation)
  {
    hide Acts;
    AcceptCallerKnown(db, token, invitation, now);
  }

  lemma AcceptCallerKnown(db: Db, token: int, invitation: int, now: int)
    requires AcceptInvitation(db, token, invitation, now).Committed?
    ensures token in db.sessions && db.sessions[token].principal in db.principals
  {
  }

  lemma WithdrawCloses(db: Db, token: int, invitation: int, now: int)
    requires RevokeInvitation(db, token, invitation, now).Committed?
    ensures ActsInOrg(db, token, now)
    ensures invitation in db.invitations && db.invitations[invitation].org == ActorKey(db, token).org ==>
              Closed(After(db, Withdraw(token, invitation, now)), invitation)
    ensures SameBut(db.invitations, After(db, Withdraw(token, invitation, now)).invitations, {invitation})
  {
    hide Acts;
  }

  /** What a live token of an active principal resolves to: the role in its organisation, when active. */
  ghost predicate ResolvesTo(db: Db, token: int, now: int, principal: int, org: Option<int>) {
    var found := LookupSession(db, token, now);
    && found.Some? && !found.value.isRevoked
    && (found.value.isStale <==> org.Some? && !(org.value in db.orgs && db.orgs[org.value]))
    && (org.Some? && !found.value.isStale ==>
          MemberKey(org.value, principal) in db.members
          && found.value.role == Some(db.members[MemberKey(org.value, principal)].role))
  }

  /** The new token is live for the idle timeout and resolves at once; no other token is touched. */
  ghost predicate Opened(before: Db, after: Db, principal: int, org: Option<int>, newToken: int, now: int) {
    && LiveBefore(after, newToken, now + IDLE_TIMEOUT_SECONDS) && SameElsewhere(before, after, {newToken})
    && principal in before.principals
    && (before.principals[principal].isActive ==> ResolvesTo(after, newToken, now, principal, org))
  }

  lemma OpenOpens(db: Db, principal: int, org: Option<int>, newToken: int, newId: int, now: int)
    requires CreateSession(db, principal, org, newToken, newId, now).Committed?
    ensures Opened(db, After(db, Open(principal, org, newToken, newId, now)), principal, org, newToken, now)
  {
  }

  /** A touched token is live until the window ends, but never past its absolute expiry. */
  ghost predicate Extended(before: Db, after: Db, token: int, window: int, now: int) {
    && token in before.sessions && SameElsewhere(before, after, {token})
    && LiveBefore(after, token, Min(now + window, before.sessions[token].absolute))
  }

  lemma TouchExtends(db: Db, token: int, window: int, throttle: int, now: int)
    requires TouchDue(db, token, throttle, now) && window >= 0
    ensures Extended(db, After(db, Touch(token, window, throttle, now)), token, window, now)
  {
  }

  lemma RevokeKills(db: Db, token: int, now: int)
    ensures var after := After(db, Revoke(token, now)); Dead(after, token) && SameElsewhere(db, after, {token})
  {
  }

  ghost predicate SignedOut(before: Db, after: Db, principal: int) {
    && (forall t :: t in before.sessions && before.sessions[t].principal == principal ==> Dead(after, t))
    && forall t, at :: t in before.sessions && before.sessions[t].principal != principal ==>
         (HasUsable(after, t, at) <==> HasUsable(before, t, at))
  }

  lemma RevokeAllSignsOut(db: Db, token: int, now: int)
    requires HasUsable(db, token, now)
    ensures SignedOut(db, After(db, RevokeAll(token, now)), db.sessions[token].principal)
  {
  }

  /** The old token is dead; the new one resolves in the organisation and keeps the absolute expiry. */
  ghost predicate Rotated(before: Db, after: Db, token: int, org: int, newToken: int, now: int) {
    && token in before.sessions && token != newToken && Dead(after, token)
    && SameElsewhere(before, after, {token, newToken})
    && LiveBefore(after, newToken, Min(now + IDLE_TIMEOUT_SECONDS, before.sessions[token].absolute))
    && var p := before.sessions[token].principal;
       p in before.principals && before.principals[p].isActive ==>
         ResolvesTo(after, newToken, now, p, Some(org)) && !LookupSession(after, newToken, now).value.isStale
  }

  lemma SwitchRotates(db: Db, token: int, org: int, newToken: int, now: int)
    requires SwitchOrganisation(db, token, org, newToken, now).Committed?
    ensures Rotated(db, After(db, Switch(token, org, newToken, now)), token, org, newToken, now)
  {
  }

  // ----- The calls

  function RevokedRows(sessions: map<int, UserSession>, tokens: set<int>, now: int): map<int, UserSession> {
    map t | t in sessions :: if t in tokens then sessions[t].(revokedAt := Some(now)) else sessions[t]
  }

  lemma NoneRevoked(sessions: map<int, UserSession>, now: int)
    ensures RevokedRows(sessions, {}, now) == sessions
  {
  }

  lemma RevokeOne(sessions: map<int, UserSession>, done: set<int>, t: int, now: int)
    requires t in sessions
    ensures RevokedRows(sessions, done + {t}, now)
            == RevokedRows(sessions, done, now)[t := RevokedRows(sessions, done, now)[t].(revokedAt := Some(now))]
  {
  }

  function OpenSessions(db: Db, principal: int): set<int> {
    set t | t in db.sessions && db.sessions[t].principal == principal && db.sessions[t].revokedAt.None?
  }

  class Tables {
    var principals: map<int, Principal>
    var orgs: map<int, bool>
    var members: map<MemberKey, Membership>
    var sessions: map<int, UserSession>
    var invitations: map<int, Invitation>

    function Value(): Db
      reads this
    {
      Db(principals, orgs, members, sessions, invitations)
    }

    constructor ()
      ensures Value() == EMPTY.db && Inv(Value())
    {
      principals, orgs, members, sessions, invitations := map[], map[], map[], map[], map[];
    }

    method CreateOrganisation(token: int, newOrg: int, now: int) returns (r: Reply)
      requires Inv(Value()) && newOrg !in orgs
      modifies this`orgs, this`members
      ensures Did(old(Value()), Value(), r, NewOrg(token, newOrg, now)) && Kept(old(Value()), Value())
      ensures r == Ok <==> Acts(old(Value()), token, now)
      ensures r == Ok ==> Founded(old(Value()), Value(), token, newOrg)
    {
      hide Inv, Kept, Founded;
      StepKeeps(Value(), NewOrg(token, newOrg, now));
      if !Acts(Value(), token, now) {
        return Failed(Unauthorized);
      }
      NewOrgFounds(Value(), token, newOrg, now);
      orgs := orgs[newOrg := true];
      members := members[MemberKey(newOrg, sessions[token].principal) := Membership(Owner, Active, 1)];
      return Ok;
    }

    /** Revokes the listed sessions one row at a time. */
    method RevokeRows(tokens: set<int>, now: int)
      requires tokens <= sessions.Keys
      modifies this`sessions
      ensures sessions == RevokedRows(old(sessions), tokens, now)
    {
      var left := tokens;
      ghost var before := sessions;
      NoneRevoked(before, now);
      assert tokens - left == {};
      while left != {}
        invariant left <= tokens && sessions == RevokedRows(before, tokens - left, now)
        decreases |left|
      {
        var t := MinKey(left);
        RevokeOne(before, tokens - left, t, now);
        assert tokens - (left - {t}) == tokens - left + {t};
        sessions := sessions[t := sessions[t].(revokedAt := Some(now))];
        left := left - {t};
      }
      assert tokens - left == tokens;
    }

    method MutateMembership(token: int, target: int, role: Role, status: Status, now: int) returns (r: Reply)
      requires Inv(Value())
      modifies this`members, this`sessions
      ensures Did(old(Value()), Value(), r, Mutate(token, target, role, status, now)) && Kept(old(Value()), Value())
      ensures r == Ok <==> MayMutate(old(Value()), token, target, role, now)
      ensures r != Failed(LastOwner)
      ensures r == Ok ==> ActsInOrg(old(Value()), token, now)
                          && Resigned(old(Value()), Value(), MemberKey(ActorKey(old(Value()), token).org, target), role,
                                      status)
    {
      hide Acts, RevokeSessionsOf, ActiveOwners, Inv, Kept, Resigned, MayMutate;
      var db := Value();
      StepKeeps(db, Mutate(token, target, role, status, now));
      MutatesExactlyWhen(db, token, target, role, status, now);
      LastOwnerNeverRaised(db, token, target, role, status, now);
      if !ActsInOrg(db, token, now) {
        return Failed(Unauthorized);
      }
      ActorKnown(db, token, now);
      var actor := ActorKey(db, token);
      var key := MemberKey(actor.org, target);
      if !Manages(db, actor) {
        return Failed(Forbidden);
      }
      if actor.principal == target {
        return Failed(OwnMembership);
      }
      if key !in db.members {
        return Failed(TargetNotFound);
      }
      if db.members[actor].role == Admin && (db.members[key].role == Owner || role == Owner) {
        return Failed(OwnersOnly);
      }
      if LastOwnerCheck(db, key, role, status) {
        return Failed(LastOwner);
      }
      MutateResigns(db, token, target, role, status, now);
      Rewrite(key, role, status, now);
      return Ok;
    }

    /** Writes the membership at its next version and revokes the member's sessions in the organisation. */
    method Rewrite(key: MemberKey, role: Role, status: Status, now: int)
      requires key in members
      modifies this`members, this`sessions
      ensures members == old(members)[key := Membership(role, status, old(members)[key].version + 1)]
      ensures sessions == RevokeSessionsOf(old(sessions), key, now)
    {
      members := members[key := Membership(role, status, members[key].version + 1)];
      var tokens := set t | t in sessions && SessionOf(sessions[t], key);
      RevokeRows(tokens, now);
    }

    method CreateInvitation(token: int, email: string, role: Role, newInvitation: int, now: int) returns (r: Reply)
      requires Inv(Value()) && newInvitation !in invitations
      modifies this`invitations
      ensures Did(old(Value()), Value(), r, Invite(token, email, role, newInvitation, now))
      ensures Kept(old(Value()), Value())
      ensures r == Ok <==> MayInvite(old(Value()), token, email, role, now)
      ensures r == Ok ==> Offered(old(Value()), Value(), token, email, role, newInvitation, now)
    {
      hide Inv, Kept, Offered, AlreadyActive, Acts, MayInvite;
      InvitesExactlyWhen(Value(), token, email, role, newInvitation, now);
      StepKeeps(Value(), Invite(token, email, role, newInvitation, now));
      ActorKnown(Value(), token, now);
      if !ActsInOrg(Value(), token, now) {
        return Failed(Unauthorized);
      }
      var actor := ActorKey(Value(), token);
      if !Manages(Value(), actor) {
        return Failed(Forbidden);
      }
      if members[actor].role == Admin && role == Owner {
        return Failed(OwnersOnly);
      }
      if AlreadyActive(Value(), actor.org, email) {
        return Failed(AlreadyMember);
      }
      InviteOffers(Value(), token, email, role, newInvitation, now);
      invitations := invitations[newInvitation := Invitation(actor.org, email, role, Pending,
                                                             now + INVITATION_TTL_SECONDS)];
      return Ok;
    }

    method AcceptInvitation(token: int, invitation: int, now: int) returns (r: Reply)
      requires Inv(Value())
      modifies this`invitations, this`members
      ensures Did(old(Value()), Value(), r, Accept(token, invitation, now)) && Kept(old(Value()), Value())
      ensures r == Ok <==> MayAccept(old(Value()), token, invitation, now)
      ensures r == Ok ==> Joined(old(Value()), Value(), token, invitation)
    {
      hide Inv, Kept, Joined;
      StepKeeps(Value(), Accept(token, invitation, now));
      if !Acts(Value(), token, now) {
        return Failed(Unauthorized);
      }
      if invitation !in invitations || !invitations[invitation].state.Pending?
         || now >= invitations[invitation].expires {
        return Failed(BadInvitation);
      }
      var inv, p := invitations[invitation], sessions[token].principal;
      if principals[p].email != inv.email {
        return Failed(EmailMismatch);
      }
      var key := MemberKey(inv.org, p);
      if key in members {
        return Failed(Integrity);
      }
      AcceptJoins(Value(), token, invitation, now);
      invitations := invitations[invitation := inv.(state := Accepted(now))];
      members := members[key := Membership(inv.role, Active, 1)];
      return Ok;
    }

    method RevokeInvitation(token: int, invitation: int, now: int) returns (r: Reply, done: bool)
      requires Inv(Value())
      modifies this`invitations
      ensures Did(old(Value()), Value(), r, Withdraw(token, invitation, now)) && Kept(old(Value()), Value())
      ensures done <==> invitations != old(invitations)
      ensures done ==> invitation in old(invitations) && old(invitations)[invitation].state == Pending
                       && ActsAs(old(Value()), token, now, MemberKey(old(invitations)[invitation].org,
                                                                     old(sessions)[token].principal))
      ensures r == Ok <==> MayWithdraw(old(Value()), token, now)
      ensures r == Ok ==> ActsInOrg(old(Value()), token, now)
      ensures r == Ok && invitation in old(invitations)
              && old(invitations)[invitation].org == ActorKey(old(Value()), token).org ==>
                Closed(Value(), invitation)
      ensures SameBut(old(invitations), invitations, {invitation})
    {
      hide Inv, Kept, Closed, Acts, MayWithdraw;
      WithdrawsExactlyWhen(Value(), token, invitation, now);
      StepKeeps(Value(), Withdraw(token, invitation, now));
      ActorKnown(Value(), token, now);
      done := false;
      if !ActsInOrg(Value(), token, now) {
        return Failed(Unauthorized), false;
      }
      if !Manages(Value(), ActorKey(Value(), token)) {
        return Failed(Forbidden), false;
      }
      WithdrawCloses(Value(), token, invitation, now);
      if invitation !in invitations || invitations[invitation].org != ActorKey(Value(), token).org
         || !invitations[invitation].state.Pending? {
        return Ok, false;
      }
      invitations := invitations[invitation := invitations[invitation].(state := Revoked(now))];
      assert invitations[invitation] != old(invitations)[invitation];
      return Ok, true;
    }

    method CreateSession(principal: int, org: Option<int>, newToken: int, newId: int, now: int) returns (r: Reply)
      requires Inv(Value()) && forall t :: t in sessions ==> sessions[t].id != newId
      modifies this`sessions
      ensures Did(old(Value()), Value(), r, Open(principal, org, newToken, newId, now)) && Kept(old(Value()), Value())
      ensures r == Ok <==> MayOpen(old(Value()), principal, org, newToken)
      ensures r == Ok ==> Opened(old(Value()), Value(), principal, org, newToken, now)
      ensures r == Ok ==> !exists at :: HasUsable(old(Value()), newToken, at)
    {
      hide Inv, Kept, Opened;
      StepKeeps(Value(), Open(principal, org, newToken, newId, now));
      var version: Option<int> := None;
      if org.Some? {
        if !IsActive(Value(), MemberKey(org.value, principal)) {
          return Failed(NoMembership);
        }
        version := Some(members[MemberKey(org.value, principal)].version);
      }
      if principal !in principals || newToken in sessions {
        return Failed(Integrity);
      }
      OpenOpens(Value(), principal, org, newToken, newId, now);
      sessions := sessions[newToken :=
        UserSession(newId, principal, org, version, now, now + IDLE_TIMEOUT_SECONDS,
                    now + ABSOLUTE_TIMEOUT_SECONDS, None)];
      return Ok;
    }

    method TouchSession(token: int, window: int, throttle: int, now: int) returns (r: Reply, updated: bool)
      requires Inv(Value())
      modifies this`sessions
      ensures Did(old(Value()), Value(), r, Touch(token, window, throttle, now)) && Kept(old(Value()), Value())
      ensures updated <==> TouchDue(old(Value()), token, throttle, now) && window >= 0
      ensures r == Failed(Integrity) <==> TouchDue(old(Value()), token, throttle, now) && window < 0
      ensures updated ==> Extended(old(Value()), Value(), token, window, now)
      ensures !updated ==> Value() == old(Value())
    {
      hide Inv, Kept, Extended;
      StepKeeps(Value(), Touch(token, window, throttle, now));
      if !TouchDue(Value(), token, throttle, now) {
        return Ok, false;
      }
      var s := sessions[token];
      var idle := Min(now + window, s.absolute);
      if idle < now {
        return Failed(Integrity), false;
      }
      TouchExtends(Value(), token, window, throttle, now);
      sessions := sessions[token := s.(lastActive := now, idle := idle)];
      return Ok, true;
    }

    method RevokeSession(token: int, now: int) returns (revoked: bool)
      requires Inv(Value())
      modifies this`sessions
      ensures Did(old(Value()), Value(), Ok, Revoke(token, now)) && Kept(old(Value()), Value())
      ensures Dead(Value(), token) && SameElsewhere(old(Value()), Value(), {token})
      ensures revoked <==> Value() != old(Value())
    {
      hide Inv, Kept, Dead, SameElsewhere;
      StepKeeps(Value(), Revoke(token, now));
      RevokeKills(Value(), token, now);
      if token in sessions && sessions[token].revokedAt.None? {
        sessions := sessions[token := sessions[token].(revokedAt := Some(now))];
        assert sessions[token] != old(sessions)[token];
        return true;
      }
      return false;
    }

    method RevokeAllSessions(token: int, now: int) returns (count: nat)
      requires Inv(Value())
      modifies this`sessions
      ensures Did(old(Value()), Value(), Ok, RevokeAll(token, now)) && Kept(old(Value()), Value())
      ensures HasUsable(old(Value()), token, now) ==> SignedOut(old(Value()), Value(), old(sessions)[token].principal)
      ensures count == if HasUsable(old(Value()), token, now)
                       then |OpenSessions(old(Value()), old(Value()).sessions[token].principal)| else 0
    {
      hide Inv, Kept, SignedOut;
      StepKeeps(Value(), RevokeAll(token, now));
      if !HasUsable(Value(), token, now) {
        return 0;
      }
      RevokeAllSignsOut(Value(), token, now);
      var before, principal := sessions, sessions[token].principal;
      var tokens := OpenSessions(Value(), principal);
      RevokeRows(tokens, now);
      assert sessions == RevokeSessionsFor(before, principal, now);
      return |tokens|;
    }

    method SwitchOrganisation(token: int, org: int, newToken: int, now: int) returns (r: Reply)
      requires Inv(Value())
      modifies this`sessions
      ensures Did(old(Value()), Value(), r, Switch(token, org, newToken, now)) && Kept(old(Value()), Value())
      ensures r == Ok <==> MaySwitch(old(Value()), token, org, newToken, now)
      ensures r == Ok ==> Rotated(old(Value()), Value(), token, org, newToken, now)
    {
      hide Inv, Kept, Rotated;
      StepKeeps(Value(), Switch(token, org, newToken, now));
      if !HasUsable(Value(), token, now) {
        return Failed(Unauthorized);
      }
      var s := sessions[token];
      var key := MemberKey(org, s.principal);
      if org !in orgs || !orgs[org] || !IsActive(Value(), key) {
        return Failed(NoMembership);
      }
      if newToken in sessions {
        return Failed(Integrity);
      }
      SwitchRotates(Value(), token, org, newToken, now);
      sessions := (sessions - {token})[newToken :=
        s.(org := Some(org), version := Some(members[key].version), lastActive := now,
           idle := Min(now + IDLE_TIMEOUT_SECONDS, s.absolute))];
      return Ok;
    }
  }

  lemma ActorKnown(db: Db, token: int, now: int)
    ensures ActsInOrg(db, token, now) ==> token in db.sessions && db.sessions[token].org.Some?
  {
  }
}
