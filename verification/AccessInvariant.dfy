/** The invariant of every access state reached from the empty one. It is stronger than the state's own
    check, which also admits states no run reaches. */
module AccessInvariant {
  import opened Options
  import opened AccessEvents
  import opened Access

  // ---------------------------------------------------------------- invariant

  ghost predicate Inv(rules: DeviceRules, st: State) {
    if st.revision == 0 then st == Empty(st.workspaceId)
    else
      && st.lastEventId.Some?
      && (exists d :: IsActiveOwner(st, d))
      && st.devices.Keys == st.memberships.Keys
      && All(st.memberships.Keys, MemberGood(rules, st))
      && AllDistinct(st.memberships.Keys, JoinedAt(st))
      && (forall v | v in st.keyGrants :: v.generation > 0)
      && AllGrants(GrantGood(st))
  }

  ghost predicate All(ds: set<DeviceId>, good: DeviceId -> bool) {
    forall d {:trigger good(d)} | d in ds :: good(d)
  }

  ghost predicate AllDistinct(ds: set<DeviceId>, at: DeviceId -> int) {
    forall d, d' {:trigger at(d), at(d')} | d in ds && d' in ds && at(d) == at(d') :: d == d'
  }

  ghost predicate AllGrants(good: (KeyVersion, DeviceId) -> bool) {
    forall v, d {:trigger good(v, d)} :: good(v, d)
  }

  ghost function MemberGood(rules: DeviceRules, st: State): DeviceId -> bool {
    d => DeviceInv(rules, st, d) && MemberInv(st, d)
  }

  ghost function JoinedAt(st: State): DeviceId -> int {
    d => if d in st.memberships then st.memberships[d].joinedAtRevision else -1
  }

  ghost function GrantGood(st: State): (KeyVersion, DeviceId) -> bool {
    (v, d) => match GrantOf(st.keyGrants, v, d) case None => true case Some(g) => GrantInv(st, v, d, g)
  }

  lemma MemberFacts(rules: DeviceRules, st: State, d: DeviceId)
    requires Inv(rules, st) && d in st.memberships
    ensures DeviceInv(rules, st, d) && MemberInv(st, d) && st.revision > 0
  {
    assert MemberGood(rules, st)(d);
  }

  lemma GrantFacts(rules: DeviceRules, st: State, v: KeyVersion, d: DeviceId)
    requires Inv(rules, st) && GrantOf(st.keyGrants, v, d).Some?
    ensures GrantInv(st, v, d, GrantOf(st.keyGrants, v, d).value) && st.revision > 0
  {
    assert GrantGood(st)(v, d);
  }

  ghost predicate DeviceInv(rules: DeviceRules, st: State, d: DeviceId) {
    && d in st.devices
    && st.devices[d].deviceId == d && DeviceOk(rules, st.devices[d])
    && st.devices[d].status == (if IsActive(st, d) then Active else Revoked)
  }

  /** Joined by an earlier member that was not yet removed, except the creator, who joined alone at
      revision 1; removed strictly later than joined, or not at all. */
  ghost predicate MemberInv(st: State, d: DeviceId) {
    d in st.memberships
    && var m := st.memberships[d];
    && m.deviceId == d
    && 0 < m.joinedAtRevision <= st.revision
    && m.joinedByDeviceId in st.memberships
    && (m.joinedByDeviceId == d <==> m.joinedAtRevision == 1)
    && (m.joinedByDeviceId != d ==> WasMember(st, m.joinedByDeviceId, m.joinedAtRevision))
    && match m.status
       case ActiveMember =>
         m.removedAtRevision == None && m.removedAt == None && m.removedByDeviceId == None
       case RemovedMember =>
         && m.removedAtRevision.Some? && m.removedAt.Some? && m.removedByDeviceId.Some?
         && m.removedByDeviceId.value in st.memberships
         && m.joinedAtRevision < m.removedAtRevision.value <= st.revision
  }

  /** The device had joined before the revision and was removed after it, if ever. */
  ghost predicate WasMember(st: State, d: DeviceId, revision: nat) {
    && d in st.memberships
    && st.memberships[d].joinedAtRevision < revision
    && (st.memberships[d].removedAtRevision.Some? ==> revision < st.memberships[d].removedAtRevision.value)
  }

  ghost predicate RemovedNoEarlier(st: State, d: DeviceId, revision: nat) {
    d in st.memberships && st.memberships[d].removedAtRevision.Some?
    && revision <= st.memberships[d].removedAtRevision.value
  }

  /** Granted to a member, and revoked strictly later or still held by an active member; a removal ends
      every grant. */
  ghost predicate GrantInv(st: State, v: KeyVersion, d: DeviceId, g: KeyGrant) {
    && v.generation > 0 && g.deviceId == d && g.keyId == v.keyId && g.generation == v.generation
    && WasMember(st, d, g.grantedAtRevision) && g.grantedAtRevision <= st.revision
    && g.grantedByDeviceId in st.memberships
    && match g.revokedAtRevision
       case None => IsActive(st, d) && g.revokedAt == None && g.revokedByDeviceId == None
       case Some(r) =>
         && g.grantedAtRevision < r <= st.revision
         && g.revokedAt.Some? && g.revokedByDeviceId.Some? && g.revokedByDeviceId.value in st.memberships
         && (IsActive(st, d) || RemovedNoEarlier(st, d, r))
  }

  /** Only active members hold active grants. */
  lemma ActiveHolder(rules: DeviceRules, st: State, v: KeyVersion, d: DeviceId)
    requires Inv(rules, st)
    ensures HasActiveGrant(st.keyGrants, v, d) ==> IsActive(st, d)
    ensures GrantGood(st)(v, d)
  {
    if GrantOf(st.keyGrants, v, d).Some? { GrantFacts(rules, st, v, d); }
  }

  /** On reachable states the state's own check always succeeds. */
  lemma InvImpliesOk(rules: DeviceRules, st: State)
    requires Inv(rules, st)
    ensures StateOk(rules, st)
  {
    if st.revision != 0 {
      var o :| IsActiveOwner(st, o);
      assert o in ActiveOwners(st);
      forall v, d | v in st.keyGrants && d in st.keyGrants[v] ensures GrantIndexed(st, v, d, st.keyGrants[v][d]) {
        GrantFacts(rules, st, v, d);
      }
      forall d | d in st.memberships
        ensures MembershipOk(st, d) && DeviceInv(rules, st, d)
      {
        MemberFacts(rules, st, d);
      }
    }
  }

  // ---------------------------------------------------------------- preservation

  /** Among several owners, or when the device is not one, another owner is left. */
  /** An active owner is the last one if and only if no other device is one. */
  lemma LastOwner(st: State, d: DeviceId)
    requires IsActiveOwner(st, d)
    ensures |ActiveOwners(st)| == 1 <==> !exists o :: o != d && IsActiveOwner(st, o)
  {
    assert d in ActiveOwners(st);
    var others := ActiveOwners(st) - {d};
    assert ActiveOwners(st) == others + {d};
    if others == {} {
      forall o | o in st.memberships && o != d ensures !IsActiveOwner(st, o) { assert o !in others; }
    } else {
      var o :| o in others;
      assert IsActiveOwner(st, o) && {o, d} <= ActiveOwners(st);
    }
  }

  lemma AnotherOwner(rules: DeviceRules, st: State, d: DeviceId) returns (o: DeviceId)
    requires Inv(rules, st) && st.revision > 0
    requires !(IsActiveOwner(st, d) && |ActiveOwners(st)| == 1)
    ensures o != d && IsActiveOwner(st, o)
  {
    var owners := ActiveOwners(st);
    o :| IsActiveOwner(st, o);
    assert o in owners;
    if o == d {
      assert |{d}| == 1 && owners != {d};
      o :| o in owners && o != d;
    }
  }

  /** What one event may do to a member: its identity, its joining and its keys stay; a removal happens
      once, at the new revision. */
  ghost predicate MemberStep(st: State, st': State, d: DeviceId) {
    && d in st.memberships && d in st'.memberships && d in st.devices && d in st'.devices
    && st'.revision == st.revision + 1
    && var m, m' := st.memberships[d], st'.memberships[d];
    && m'.deviceId == m.deviceId && m'.joinedByDeviceId == m.joinedByDeviceId
    && m'.joinedAt == m.joinedAt && m'.joinedAtRevision == m.joinedAtRevision
    && SameKeys(st.devices[d], st'.devices[d])
    && ((SameStanding(m, m') && st'.devices[d].status == st.devices[d].status)
        || (JustRemoved(st', m, m') && st'.devices[d].status == Revoked))
  }

  ghost predicate SameKeys(d: DeviceRecord, d': DeviceRecord) {
    d' == d.(status := d'.status)
  }

  ghost predicate SameStanding(m: Membership, m': Membership) {
    && m'.status == m.status && m'.removedByDeviceId == m.removedByDeviceId
    && m'.removedAt == m.removedAt && m'.removedAtRevision == m.removedAtRevision
  }

  ghost predicate JustRemoved(st': State, m: Membership, m': Membership) {
    && m.status == ActiveMember && m'.status == RemovedMember
    && m'.removedByDeviceId.Some? && m'.removedByDeviceId.value in st'.memberships && m'.removedAt.Some?
    && m'.removedAtRevision == Some(st'.revision)
  }

  ghost function Stepped(st: State, st': State): DeviceId -> bool {
    d => MemberStep(st, st', d)
  }

  /** Every member takes such a step. */
  ghost predicate MemberSteps(st: State, st': State) {
    All(st.memberships.Keys, Stepped(st, st')) && st'.lastEventId.Some? && st'.devices.Keys == st'.memberships.Keys
  }

  lemma StepKeepsMember(rules: DeviceRules, st: State, st': State, d: DeviceId)
    requires d in st.memberships && MemberGood(rules, st)(d) && MemberSteps(st, st')
    ensures MemberGood(rules, st')(d) && JoinedAt(st')(d) == JoinedAt(st)(d)
    ensures JoinedAt(st')(d) < st'.revision
  {
    assert Stepped(st, st')(d);
    assert Stepped(st, st')(st.memberships[d].joinedByDeviceId);
    if IsRemoved(st, d) { assert Stepped(st, st')(st.memberships[d].removedByDeviceId.value); }
  }

  lemma StepKeepsGrant(st: State, st': State, v: KeyVersion, d: DeviceId)
    requires GrantGood(st)(v, d) && GrantOf(st'.keyGrants, v, d) == GrantOf(st.keyGrants, v, d) && MemberSteps(st, st')
    requires HasActiveGrant(st.keyGrants, v, d) ==> IsActive(st', d)
    ensures GrantGood(st')(v, d)
  {
    if GrantOf(st.keyGrants, v, d).Some? {
      var g := GrantOf(st.keyGrants, v, d).value;
      assert Stepped(st, st')(d);
      assert Stepped(st, st')(g.grantedByDeviceId);
      if g.revokedAtRevision.Some? { assert Stepped(st, st')(g.revokedByDeviceId.value); }
    }
  }

  ghost predicate GrantsInv(st: State) {
    (forall v | v in st.keyGrants :: v.generation > 0) && AllGrants(GrantGood(st))
  }

  lemma DistinctCarriesOver(ds: set<DeviceId>, at: DeviceId -> int, at': DeviceId -> int)
    requires AllDistinct(ds, at) && forall d | d in ds :: at'(d) == at(d)
    ensures AllDistinct(ds, at')
  {
  }

  lemma OneMoreDistinct(ds: set<DeviceId>, at: DeviceId -> int, at': DeviceId -> int, n: DeviceId)
    requires AllDistinct(ds, at) && forall d | d in ds :: at'(d) == at(d) < at'(n)
    ensures AllDistinct(ds + {n}, at')
  {
  }

  lemma StepKeepsMembers(rules: DeviceRules, st: State, st': State)
    requires Inv(rules, st) && MemberSteps(st, st')
    ensures All(st.memberships.Keys, MemberGood(rules, st'))
  {
    forall d | d in st.memberships.Keys ensures MemberGood(rules, st')(d) {
      MemberFacts(rules, st, d);
      StepKeepsMember(rules, st, st', d);
    }
  }

  lemma StepKeepsJoins(rules: DeviceRules, st: State, st': State)
    requires Inv(rules, st) && MemberSteps(st, st')
    ensures forall d | d in st.memberships.Keys :: JoinedAt(st')(d) == JoinedAt(st)(d) < st'.revision
  {
    forall d | d in st.memberships.Keys ensures JoinedAt(st')(d) == JoinedAt(st)(d) < st'.revision {
      MemberFacts(rules, st, d);
      StepKeepsMember(rules, st, st', d);
    }
  }

  /** An event that adds no member keeps the part of the invariant about members. */
  lemma StepKeepsInv(rules: DeviceRules, st: State, st': State, o: DeviceId)
    requires Inv(rules, st) && st.revision > 0 && MemberSteps(st, st') && st'.memberships.Keys == st.memberships.Keys
    requires IsActiveOwner(st', o) && GrantsInv(st') && st'.revision > 0
    ensures Inv(rules, st')
  {
    StepKeepsMembers(rules, st, st');
    StepKeepsJoins(rules, st, st');
    DistinctCarriesOver(st.memberships.Keys, JoinedAt(st), JoinedAt(st'));
  }

  lemma JoinKeepsMembers(rules: DeviceRules, st: State, st': State, n: DeviceId)
    requires Inv(rules, st) && st.revision > 0 && MemberSteps(st, st') && n !in st.memberships
    requires st'.memberships.Keys == st.memberships.Keys + {n}
    requires MemberGood(rules, st')(n) && JoinedAt(st')(n) == st'.revision
    ensures All(st'.memberships.Keys, MemberGood(rules, st')) && AllDistinct(st'.memberships.Keys, JoinedAt(st'))
  {
    StepKeepsMembers(rules, st, st');
    StepKeepsJoins(rules, st, st');
    OneMoreDistinct(st.memberships.Keys, JoinedAt(st), JoinedAt(st'), n);
  }

  /** Grants are untouched and nobody stops being active. */
  lemma SameGrants(rules: DeviceRules, st: State, st': State)
    requires Inv(rules, st) && MemberSteps(st, st') && st'.keyGrants == st.keyGrants && st.revision > 0
    requires forall d | IsActive(st, d) :: IsActive(st', d)
    ensures GrantsInv(st')
  {
    forall v, d ensures GrantGood(st')(v, d) {
      ActiveHolder(rules, st, v, d);
      StepKeepsGrant(st, st', v, d);
    }
  }

  lemma JoinSteps(rules: DeviceRules, st: State, e: SignedAccessEvent, device: DeviceRecord, role: Role)
    requires Inv(rules, st) && device.deviceId !in st.memberships
    ensures MemberSteps(st, AfterJoin(st, e, device, role))
  {
  }

  lemma NewcomerIsGood(rules: DeviceRules, st: State, e: SignedAccessEvent, device: DeviceRecord, role: Role)
    requires Inv(rules, st) && st.revision > 0
    requires DeviceOk(rules, device) && device.status == Active
    requires device.deviceId !in st.memberships && IsActive(st, e.actorDeviceId)
    ensures MemberGood(rules, AfterJoin(st, e, device, role))(device.deviceId)
    ensures JoinedAt(AfterJoin(st, e, device, role))(device.deviceId) == st.revision + 1
  {
    MemberFacts(rules, st, e.actorDeviceId);
  }

  lemma JoinKeepsInv(rules: DeviceRules, st: State, e: SignedAccessEvent, device: DeviceRecord, role: Role)
    requires Inv(rules, st) && st.revision > 0
    requires DeviceOk(rules, device) && device.status == Active
    requires device.deviceId !in st.memberships && IsActive(st, e.actorDeviceId)
    ensures Inv(rules, AfterJoin(st, e, device, role))
  {
    var st' := AfterJoin(st, e, device, role);
    var o :| IsActiveOwner(st, o);
    assert IsActiveOwner(st', o);
    NewcomerIsGood(rules, st, e, device, role);
    JoinSteps(rules, st, e, device, role);
    SameGrants(rules, st, st');
    JoinKeepsMembers(rules, st, st', device.deviceId);
  }

  lemma CreationMakesInv(rules: DeviceRules, id: string, e: SignedAccessEvent, owner: DeviceRecord)
    requires DeviceOk(rules, owner) && owner.status == Active && e.actorDeviceId == owner.deviceId
    ensures Inv(rules, AfterJoin(Empty(id), e, owner, Owner))
  {
    var st' := AfterJoin(Empty(id), e, owner, Owner);
    assert IsActiveOwner(st', owner.deviceId);
    assert MemberGood(rules, st')(owner.deviceId);
    assert st'.memberships.Keys == {owner.deviceId};
    forall v, d ensures GrantGood(st')(v, d) {}
  }

  lemma RoleChangeKeepsInv(rules: DeviceRules, st: State, e: SignedAccessEvent, n: DeviceId, role: Role)
    requires Inv(rules, st) && st.revision > 0 && IsActive(st, n)
    requires role != Owner ==> !(IsActiveOwner(st, n) && |ActiveOwners(st)| == 1)
    ensures Inv(rules, AfterRoleChange(st, e, n, role))
  {
    var st' := AfterRoleChange(st, e, n, role);
    var o := n;
    if role != Owner { o := AnotherOwner(rules, st, n); }
    forall d | d in st.memberships ensures Stepped(st, st')(d) {}
    SameGrants(rules, st, st');
    StepKeepsInv(rules, st, st', o);
  }

  lemma RevokeAllGrants(
    grants: Grants, d: DeviceId, actor: DeviceId, at: nat, revision: nat, v: KeyVersion, x: DeviceId)
    ensures GrantOf(RevokeAll(grants, d, actor, at, revision), v, x) ==
      (if x == d && HasActiveGrant(grants, v, d) then Some(Ended(GrantOf(grants, v, d).value, actor, at, revision))
       else GrantOf(grants, v, x))
  {
  }

  /** Ending an active grant at the new revision, whether or not its holder is removed at the same time. */
  lemma EndedGrant(st: State, st': State, v: KeyVersion, d: DeviceId, actor: DeviceId, at: nat)
    requires GrantGood(st)(v, d) && HasActiveGrant(st.keyGrants, v, d)
    requires MemberSteps(st, st') && actor in st.memberships
    requires GrantOf(st'.keyGrants, v, d) == Some(Ended(GrantOf(st.keyGrants, v, d).value, actor, at, st'.revision))
    ensures GrantGood(st')(v, d)
  {
    assert Stepped(st, st')(d);
    assert Stepped(st, st')(GrantOf(st.keyGrants, v, d).value.grantedByDeviceId) && Stepped(st, st')(actor);
  }

  lemma RemovalSteps(rules: DeviceRules, st: State, e: SignedAccessEvent, n: DeviceId)
    requires Inv(rules, st) && IsActive(st, n) && e.actorDeviceId in st.memberships
    ensures MemberSteps(st, AfterRemoval(st, e, n))
  {
    var st' := AfterRemoval(st, e, n);
    forall d | d in st.memberships ensures Stepped(st, st')(d) { MemberFacts(rules, st, d); }
  }

  lemma RemovalEndsGrants(rules: DeviceRules, st: State, e: SignedAccessEvent, n: DeviceId)
    requires Inv(rules, st) && IsActive(st, n) && e.actorDeviceId in st.memberships
    requires MemberSteps(st, AfterRemoval(st, e, n))
    ensures GrantsInv(AfterRemoval(st, e, n))
  {
    var st' := AfterRemoval(st, e, n);
    forall v, d ensures GrantGood(st')(v, d) {
      RevokeAllGrants(st.keyGrants, n, e.actorDeviceId, e.createdAt, st.revision + 1, v, d);
      ActiveHolder(rules, st, v, d);
      if d == n && HasActiveGrant(st.keyGrants, v, d) {
        EndedGrant(st, st', v, d, e.actorDeviceId, e.createdAt);
      } else {
        StepKeepsGrant(st, st', v, d);
      }
    }
  }

  lemma RemovalKeepsInv(rules: DeviceRules, st: State, e: SignedAccessEvent, n: DeviceId)
    requires Inv(rules, st) && st.revision > 0 && IsActive(st, n) && IsActive(st, e.actorDeviceId)
    requires !(IsActiveOwner(st, n) && |ActiveOwners(st)| == 1)
    ensures Inv(rules, AfterRemoval(st, e, n))
  {
    var o := AnotherOwner(rules, st, n);
    RemovalSteps(rules, st, e, n);
    RemovalEndsGrants(rules, st, e, n);
    StepKeepsInv(rules, st, AfterRemoval(st, e, n), o);
  }

  lemma GrantKeepsInv(rules: DeviceRules, st: State, e: SignedAccessEvent, key: KeyId, generation: nat, n: DeviceId)
    requires Inv(rules, st) && st.revision > 0 && generation > 0 && IsActive(st, n) && IsActive(st, e.actorDeviceId)
    ensures Inv(rules, AfterGrant(st, e, key, generation, n))
  {
    var st' := AfterGrant(st, e, key, generation, n);
    var o :| IsActiveOwner(st, o);
    forall d | d in st.memberships ensures Stepped(st, st')(d) { MemberFacts(rules, st, d); }
    MemberFacts(rules, st, n);
    forall v, d ensures GrantGood(st')(v, d) {
      ActiveHolder(rules, st, v, d);
      if v != KeyVersion(key, generation) || d != n {
        StepKeepsGrant(st, st', v, d);
      }
    }
    StepKeepsInv(rules, st, st', o);
  }

  lemma RevocationKeepsInv(rules: DeviceRules, st: State, e: SignedAccessEvent, k: KeyVersion, n: DeviceId)
    requires Inv(rules, st) && st.revision > 0 && HasActiveGrant(st.keyGrants, k, n) && IsActive(st, e.actorDeviceId)
    ensures Inv(rules, AfterRevocation(st, e, k, n))
  {
    var st' := AfterRevocation(st, e, k, n);
    var o :| IsActiveOwner(st, o);
    forall d | d in st.memberships ensures Stepped(st, st')(d) { MemberFacts(rules, st, d); }
    forall v, d ensures GrantGood(st')(v, d) {
      if v == k && d == n {
        EndedGrant(st, st', v, d, e.actorDeviceId, e.createdAt);
      } else {
        ActiveHolder(rules, st, v, d);
        StepKeepsGrant(st, st', v, d);
      }
    }
    StepKeepsInv(rules, st, st', o);
  }

  /** Every event that is not refused keeps the invariant. */
  lemma EffectKeepsInv(rules: DeviceRules, st: State, e: SignedAccessEvent)
    requires Inv(rules, st) && Refusal(rules, st, e) == None
    ensures Inv(rules, Effect(st, e))
  {
    match e.event
    case WorkspaceCreated(owner) => CreationMakesInv(rules, st.workspaceId, e, owner);
    case DeviceJoined(_, device, role) => JoinKeepsInv(rules, st, e, device.(status := Active), role);
    case DeviceRoleChanged(d, role) => RoleChangeKeepsInv(rules, st, e, d, role);
    case DeviceRemoved(d) => RemovalKeepsInv(rules, st, e, d);
    case RestrictedKeyGranted(key, generation, d) => GrantKeepsInv(rules, st, e, key, generation, d);
    case RestrictedKeyRevoked(key, generation, d) => RevocationKeepsInv(rules, st, e, KeyVersion(key, generation), d);
  }

  /** So on reachable states the closing check of an application never fails. */
  lemma EffectIsOk(rules: DeviceRules, st: State, e: SignedAccessEvent)
    requires Inv(rules, st) && Refusal(rules, st, e) == None
    ensures StateOk(rules, Effect(st, e))
  {
    EffectKeepsInv(rules, st, e);
    InvImpliesOk(rules, Effect(st, e));
  }

  /** The invariant is strictly stronger than the check: a state of revision 0 passes with key grants. */
  lemma CheckAdmitsMore(rules: DeviceRules, id: string, g: KeyGrant)
    ensures var st := Empty(id).(keyGrants := map[KeyVersion("k", 1) := map["d" := g]]);
      StateOk(rules, st) && !Inv(rules, st)
  {
    var grants: Grants := map[KeyVersion("k", 1) := map["d" := g]];
    assert KeyVersion("k", 1) in grants;
  }
}
