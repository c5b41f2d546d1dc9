/** Which events are accepted, why the others are refused, and what an accepted one leaves. */
module AccessDecisions {
  import opened Options
  import opened AccessEvents
  import opened Access
  import opened AccessInvariant
  import opened AccessRuns

  /** Signed, with a proper device record in the right status, and a positive key generation. */
  ghost predicate WellFormed(rules: DeviceRules, e: SignedAccessEvent) {
    e.signature != [] && match e.event
      case WorkspaceCreated(owner) =>
        && rules.named(owner.deviceName) && rules.usable(owner.signingPublicKey) && owner.status == Active
        && owner.fingerprint == rules.fingerprint(owner.signingPublicKey, owner.exchangePublicKey)
      case DeviceJoined(_, device, _) =>
        && rules.named(device.deviceName) && rules.usable(device.signingPublicKey) && device.status == Pending
        && device.fingerprint == rules.fingerprint(device.signingPublicKey, device.exchangePublicKey)
      case RestrictedKeyGranted(_, generation, _) => generation > 0
      case RestrictedKeyRevoked(_, generation, _) => generation > 0
      case _ => true
  }

  /** What the sender of an event is told. `None` is acceptance. An event that is not well formed, or meant
      for another workspace or revision, is refused for that. Otherwise only an active owner is accepted, the
      creator apart, and only if
      - the joining device never was a member;
      - the device to be changed or removed is an active member, and an active owner is left;
      - the device that is granted a key is an active member without an active grant of that version;
      - the device that loses a key has an active grant of it. */
  ghost predicate Answers(rules: DeviceRules, st: State, e: SignedAccessEvent, r: Option<AccessError>) {
    && (!WellFormed(rules, e) <==>
          r in {Some(SignatureMissing), Some(InvalidDevice), Some(WrongDeviceStatus), Some(InvalidKeyGeneration)})
    && (WellFormed(rules, e) ==>
          && (r == Some(WorkspaceIdMismatch) <==> e.workspaceId != st.workspaceId)
          && (r == Some(UnexpectedRevision) <==> e.workspaceId == st.workspaceId && e.expectedRevision != st.revision)
          && (r == Some(RevisionOverflow) <==>
                e.workspaceId == st.workspaceId && e.expectedRevision == st.revision >= U64_MAX))
    && (WellFormed(rules, e) && e.workspaceId == st.workspaceId && e.expectedRevision == st.revision < U64_MAX ==>
          if e.event.WorkspaceCreated? then
            r == if st.revision > 0 then Some(NotEmpty)
                 else if e.actorDeviceId == e.event.owner.deviceId then None
                 else Some(ActorIsNotTheOwner)
          else if !IsActive(st, e.actorDeviceId) then r == Some(DeviceNotActiveMember)
          else if !IsActiveOwner(st, e.actorDeviceId) then r == Some(PermissionDenied)
          else AnswersOwner(st, e.event, r))
  }

  ghost predicate OwnerBeside(st: State, d: DeviceId) {
    exists o :: o != d && IsActiveOwner(st, o)
  }

  ghost predicate AnswersOwner(st: State, event: AccessEvent, r: Option<AccessError>) {
    match event
    case WorkspaceCreated(_) => true
    case DeviceJoined(_, device, _) =>
      r == if device.deviceId in st.memberships then Some(DeviceAlreadyMember) else None
    case DeviceRoleChanged(d, role) =>
      r == if !IsActive(st, d) then Some(DeviceNotActiveMember)
           else if role == Owner || OwnerBeside(st, d) then None
           else Some(CannotRemoveLastOwner)
    case DeviceRemoved(d) =>
      r == if !IsActive(st, d) then Some(DeviceNotActiveMember)
           else if OwnerBeside(st, d) then None
           else Some(CannotRemoveLastOwner)
    case RestrictedKeyGranted(key, generation, d) =>
      r == if !IsActive(st, d) then Some(DeviceNotActiveMember)
           else if HasActiveGrant(st.keyGrants, KeyVersion(key, generation), d) then Some(KeyAccessAlreadyGranted)
           else None
    case RestrictedKeyRevoked(key, generation, d) =>
      r == if HasActiveGrant(st.keyGrants, KeyVersion(key, generation), d) then None else Some(KeyAccessNotGranted)
  }

  lemma RefusalAnswersOwner(st: State, e: SignedAccessEvent)
    requires IsActiveOwner(st, e.actorDeviceId)
    ensures AnswersOwner(st, e.event, ContentRefusal(st, e))
  {
    match e.event
    case DeviceRoleChanged(d, _) => if IsActiveOwner(st, d) { LastOwner(st, d); }
    case DeviceRemoved(d) => if IsActiveOwner(st, d) { LastOwner(st, d); }
    case _ =>
  }

  lemma RefusalAnswers(rules: DeviceRules, st: State, e: SignedAccessEvent)
    requires Inv(rules, st)
    ensures Answers(rules, st, e, Refusal(rules, st, e))
  {
    if IsActiveOwner(st, e.actorDeviceId) { RefusalAnswersOwner(st, e); }
  }

  /** What an accepted event leaves: every record in full. */
  ghost predicate Happened(st: State, e: SignedAccessEvent, st': State) {
    match e.event
    case WorkspaceCreated(owner) =>
      && st'.devices == st.devices[owner.deviceId := owner] && st'.keyGrants == st.keyGrants
      && st'.memberships == st.memberships[owner.deviceId :=
           Membership(owner.deviceId, Owner, ActiveMember, owner.deviceId, e.createdAt, st'.revision, None, None, None)]
    case DeviceJoined(_, device, role) =>
      && st'.devices == st.devices[device.deviceId := device.(status := Active)] && st'.keyGrants == st.keyGrants
      && st'.memberships == st.memberships[device.deviceId :=
           Membership(device.deviceId, role, ActiveMember, e.actorDeviceId, e.createdAt, st'.revision,
             None, None, None)]
    case DeviceRoleChanged(d, role) =>
      && st'.devices == st.devices && st'.keyGrants == st.keyGrants && d in st.memberships
      && st'.memberships == st.memberships[d := st.memberships[d].(role := role)]
    case DeviceRemoved(d) =>
      && d in st.memberships
      && st'.memberships == st.memberships[d := st.memberships[d].(
           status := RemovedMember, removedByDeviceId := Some(e.actorDeviceId), removedAt := Some(e.createdAt),
           removedAtRevision := Some(st'.revision))]
      && (forall x :: Get(st'.devices, x) ==
            if x == d && x in st.devices then Some(st.devices[x].(status := DeviceStatus.Revoked))
            else Get(st.devices, x))
      && (forall v, x :: GrantOf(st'.keyGrants, v, x) ==
            if x == d && HasActiveGrant(st.keyGrants, v, x)
            then Some(WithEnd(GrantOf(st.keyGrants, v, x).value, e, st'.revision))
            else GrantOf(st.keyGrants, v, x))
    case RestrictedKeyGranted(key, generation, d) =>
      && st'.devices == st.devices && st'.memberships == st.memberships
      && (forall v, x :: GrantOf(st'.keyGrants, v, x) ==
            if v == KeyVersion(key, generation) && x == d
            then Some(KeyGrant(key, generation, d, e.actorDeviceId, e.createdAt, st'.revision, None, None, None))
            else GrantOf(st.keyGrants, v, x))
    case RestrictedKeyRevoked(key, generation, d) =>
      && st'.devices == st.devices && st'.memberships == st.memberships
      && (forall v, x :: GrantOf(st'.keyGrants, v, x) ==
            if v == KeyVersion(key, generation) && x == d && GrantOf(st.keyGrants, v, x).Some?
            then Some(WithEnd(GrantOf(st.keyGrants, v, x).value, e, st'.revision))
            else GrantOf(st.keyGrants, v, x))
  }

  /** The grant with its end recorded. */
  function WithEnd(g: KeyGrant, e: SignedAccessEvent, revision: nat): KeyGrant {
    KeyGrant(g.keyId, g.generation, g.deviceId, g.grantedByDeviceId, g.grantedAt, g.grantedAtRevision,
      Some(e.actorDeviceId), Some(e.createdAt), Some(revision))
  }

  lemma EffectHappens(st: State, e: SignedAccessEvent)
    requires ContentRefusal(st, e) == None
    ensures Happened(st, e, Effect(st, e))
  {
  }

  // ---------------------------------------------------------------- the closing check

  /** What the closing check demands. At revision 0 nothing may have happened. Later there is an active owner;
      every record is stored under its own id, is proper and has a membership; every membership is stored
      under its own id, joined at a past revision, and has a record that is active exactly without removal;
      every grant is stored under its own version and device and was made at a past revision. */
  ghost predicate Consistent(rules: DeviceRules, st: State) {
    if st.revision == 0 then st.memberships == map[] && st.devices == map[] && st.lastEventId == None
    else
      && (exists d :: d in st.memberships && st.memberships[d].status == ActiveMember
                      && st.memberships[d].role == Owner)
      && (forall d | d in st.devices :: ProperRecord(rules, st, d, st.devices[d]))
      && (forall d | d in st.memberships :: ProperMembership(st, d, st.memberships[d]))
      && (forall v, d | v in st.keyGrants && d in st.keyGrants[v] ::
            var g := st.keyGrants[v][d];
            g.deviceId == d && v == KeyVersion(g.keyId, g.generation) && 0 < g.grantedAtRevision <= st.revision)
      && (forall v | v in st.keyGrants :: v.generation > 0)
  }

  ghost predicate ProperRecord(rules: DeviceRules, st: State, d: DeviceId, record: DeviceRecord) {
    && record.deviceId == d && d in st.memberships
    && rules.named(record.deviceName) && rules.usable(record.signingPublicKey)
    && record.fingerprint == rules.fingerprint(record.signingPublicKey, record.exchangePublicKey)
  }

  ghost predicate ProperMembership(st: State, d: DeviceId, m: Membership) {
    && m.deviceId == d && d in st.devices && 0 < m.joinedAtRevision <= st.revision
    && (st.devices[d].status == Active <==> m.status == ActiveMember)
    && (m.status == ActiveMember ==> m.removedAtRevision == None && m.removedAt == None && m.removedByDeviceId == None)
    && (m.status == RemovedMember ==> m.removedAtRevision.Some? && m.removedAtRevision.value <= st.revision)
  }

  lemma OkIsConsistent(rules: DeviceRules, st: State)
    ensures StateOk(rules, st) <==> Consistent(rules, st)
  {
    forall d | d in st.memberships ensures MembershipOk(st, d) <==> ProperMembership(st, d, st.memberships[d]) {}
    assert ActiveOwners(st) != {} <==> exists d :: d in st.memberships && IsActiveOwner(st, d) by {
      if d :| d in st.memberships && IsActiveOwner(st, d) { assert d in ActiveOwners(st); }
    }
  }

  // ---------------------------------------------------------------- acceptance by the log

  /** The event, attempted after these, is applied. */
  ghost predicate Accepted(rules: DeviceRules, id: string, events: seq<SignedAccessEvent>, e: SignedAccessEvent) {
    After(rules, id, events + [e]).revision == After(rules, id, events).revision + 1
  }

  lemma AcceptedIfNotRefused(rules: DeviceRules, id: string, events: seq<SignedAccessEvent>, e: SignedAccessEvent)
    ensures Accepted(rules, id, events, e) <==> Refusal(rules, After(rules, id, events), e) == None
  {
    assert (events + [e])[..|events|] == events;
  }

  /** By the log: the last applied event about the device's membership gave it this role. */
  ghost predicate RoleByLog(
    rules: DeviceRules, id: string, events: seq<SignedAccessEvent>, d: DeviceId, role: Role)
  {
    HasLastWord(rules, id, events, GivingRole(d, role), ChangingRole(d))
  }

  ghost predicate MemberByLog(rules: DeviceRules, id: string, events: seq<SignedAccessEvent>, d: DeviceId) {
    RoleByLog(rules, id, events, d, Owner) || RoleByLog(rules, id, events, d, Member)
  }

  /** By the log: granted, and since then neither revoked nor removed. */
  ghost predicate HolderByLog(
    rules: DeviceRules, id: string, events: seq<SignedAccessEvent>, v: KeyVersion, d: DeviceId)
  {
    HasLastWord(rules, id, events, Granting(v, d), EndingGrant(v, d))
  }

  ghost predicate JoinedByLog(rules: DeviceRules, id: string, events: seq<SignedAccessEvent>, d: DeviceId) {
    HasLastWord(rules, id, events, Joining(d), Never())
  }

  predicate Joins(e: AccessEvent, d: DeviceId) {
    (e.WorkspaceCreated? && e.owner.deviceId == d) || (e.DeviceJoined? && e.device.deviceId == d)
  }

  function Joining(d: DeviceId): SignedAccessEvent -> bool {
    (e: SignedAccessEvent) => Joins(e.event, d)
  }

  function Never(): SignedAccessEvent -> bool {
    (e: SignedAccessEvent) => false
  }

  /** A device id is known exactly if it joined once, even if it was removed since. */
  lemma MembersFollowTheLog(rules: DeviceRules, id: string, events: seq<SignedAccessEvent>, d: DeviceId)
    ensures d in After(rules, id, events).memberships <==> JoinedByLog(rules, id, events, d)
  {
    var holds := (st: State) => d in st.memberships;
    forall st, e | ContentRefusal(st, e) == None
      ensures holds(Effect(st, e)) <==> Joining(d)(e) || (holds(st) && !Never()(e))
    {
    }
    LogDecides(rules, id, events, holds, Joining(d), Never());
  }

  lemma ActiveByLog(rules: DeviceRules, id: string, events: seq<SignedAccessEvent>, d: DeviceId)
    ensures IsActive(After(rules, id, events), d) <==> MemberByLog(rules, id, events, d)
    ensures IsActiveOwner(After(rules, id, events), d) <==> RoleByLog(rules, id, events, d, Owner)
  {
    RolesFollowTheLog(rules, id, events, d, Owner);
    RolesFollowTheLog(rules, id, events, d, Member);
  }

  /** A device joins once; a key version is granted to an active member that does not hold it, again after a
      revocation too, and revoked from a holder; a member is removed, or made a plain member, if an active
      owner is left. */
  ghost predicate LogAllows(
    rules: DeviceRules, id: string, events: seq<SignedAccessEvent>, event: AccessEvent)
  {
    match event
    case WorkspaceCreated(_) => false
    case DeviceJoined(_, device, _) => !JoinedByLog(rules, id, events, device.deviceId)
    case DeviceRoleChanged(d, role) =>
      MemberByLog(rules, id, events, d) && (role == Owner || OwnerBesideByLog(rules, id, events, d))
    case DeviceRemoved(d) =>
      MemberByLog(rules, id, events, d) && OwnerBesideByLog(rules, id, events, d)
    case RestrictedKeyGranted(key, generation, d) =>
      MemberByLog(rules, id, events, d) && !HolderByLog(rules, id, events, KeyVersion(key, generation), d)
    case RestrictedKeyRevoked(key, generation, d) =>
      HolderByLog(rules, id, events, KeyVersion(key, generation), d)
  }

  ghost predicate OwnerBesideByLog(rules: DeviceRules, id: string, events: seq<SignedAccessEvent>, d: DeviceId) {
    exists o :: o != d && RoleByLog(rules, id, events, o, Owner)
  }

  lemma OwnersBesideByLog(rules: DeviceRules, id: string, events: seq<SignedAccessEvent>, d: DeviceId)
    ensures OwnerBesideByLog(rules, id, events, d) <==> OwnerBeside(After(rules, id, events), d)
  {
    var st := After(rules, id, events);
    forall o ensures IsActiveOwner(st, o) <==> RoleByLog(rules, id, events, o, Owner) {
      ActiveByLog(rules, id, events, o);
    }
  }

  /** After any attempts, a well-formed event of this workspace and revision that an active owner signed is
      accepted exactly if the log allows it. */
  lemma AcceptedExactly(rules: DeviceRules, id: string, events: seq<SignedAccessEvent>, e: SignedAccessEvent)
    requires WellFormed(rules, e) && !e.event.WorkspaceCreated? && e.workspaceId == id
    requires e.expectedRevision == AppliedCount(rules, id, events) < U64_MAX
    requires RoleByLog(rules, id, events, e.actorDeviceId, Owner)
    ensures Accepted(rules, id, events, e) <==> LogAllows(rules, id, events, e.event)
  {
    var st := After(rules, id, events);
    AcceptedIfNotRefused(rules, id, events, e);
    RevisionCountsEvents(rules, id, events);
    RunsKeepInv(rules, id, events);
    RefusalAnswers(rules, st, e);
    ActiveByLog(rules, id, events, e.actorDeviceId);
    match e.event
    case DeviceJoined(_, device, _) => MembersFollowTheLog(rules, id, events, device.deviceId);
    case DeviceRoleChanged(d, _) => ActiveByLog(rules, id, events, d); OwnersBesideByLog(rules, id, events, d);
    case DeviceRemoved(d) => ActiveByLog(rules, id, events, d); OwnersBesideByLog(rules, id, events, d);
    case RestrictedKeyGranted(key, generation, d) =>
      ActiveByLog(rules, id, events, d);
      GrantsFollowTheLog(rules, id, events, KeyVersion(key, generation), d);
    case RestrictedKeyRevoked(key, generation, d) =>
      GrantsFollowTheLog(rules, id, events, KeyVersion(key, generation), d);
  }
}
