/** The access state of a workspace, rebuilt from events applied at consecutive revisions. */
module Access {
  import opened Options
  import opened AccessEvents

  const U64_MAX: nat := 0xFFFF_FFFF_FFFF_FFFF

  datatype MembershipStatus = ActiveMember | RemovedMember

  datatype Membership = Membership(
    deviceId: DeviceId,
    role: Role,
    status: MembershipStatus,
    joinedByDeviceId: DeviceId,
    joinedAt: nat,
    joinedAtRevision: nat,
    removedByDeviceId: Option<DeviceId>,
    removedAt: Option<nat>,
    removedAtRevision: Option<nat>)

  datatype KeyVersion = KeyVersion(keyId: KeyId, generation: nat)

  datatype KeyGrant = KeyGrant(
    keyId: KeyId,
    generation: nat,
    deviceId: DeviceId,
    grantedByDeviceId: DeviceId,
    grantedAt: nat,
    grantedAtRevision: nat,
    revokedByDeviceId: Option<DeviceId>,
    revokedAt: Option<nat>,
    revokedAtRevision: Option<nat>)

  type Grants = map<KeyVersion, map<DeviceId, KeyGrant>>

  datatype State = State(
    workspaceId: string,
    revision: nat,
    lastEventId: Option<string>,
    devices: map<DeviceId, DeviceRecord>,
    memberships: map<DeviceId, Membership>,
    keyGrants: Grants)

  function Empty(workspaceId: string): State {
    State(workspaceId, 0, None, map[], map[], map[])
  }

  // ---------------------------------------------------------------- queries

  predicate IsActive(st: State, d: DeviceId) {
    d in st.memberships && st.memberships[d].status == ActiveMember
  }

  predicate IsRemoved(st: State, d: DeviceId) {
    d in st.memberships && st.memberships[d].status == RemovedMember
  }

  predicate IsActiveOwner(st: State, d: DeviceId) {
    IsActive(st, d) && st.memberships[d].role == Owner
  }

  function ActiveOwners(st: State): set<DeviceId> {
    set d | d in st.memberships && IsActiveOwner(st, d)
  }

  function GrantOf(grants: Grants, v: KeyVersion, d: DeviceId): Option<KeyGrant> {
    if v in grants then Get(grants[v], d) else None
  }

  predicate HasActiveGrant(grants: Grants, v: KeyVersion, d: DeviceId) {
    GrantOf(grants, v, d).Some? && GrantOf(grants, v, d).value.revokedAtRevision == None
  }

  function PermissionError(st: State, d: DeviceId, permission: Option<Permission>): Option<AccessError> {
    match permission
    case None => None
    case Some(p) =>
      if !IsActive(st, d) then Some(DeviceNotActiveMember)
      else if !Allows(st.memberships[d].role, p) then Some(PermissionDenied)
      else None
  }

  // ---------------------------------------------------------------- guards

  /** Why an event is refused in a state, in the order of the checks; `None` if it may be applied. */
  function Refusal(rules: DeviceRules, st: State, e: SignedAccessEvent): Option<AccessError> {
    if SignedEventError(rules, e) != None then SignedEventError(rules, e)
    else if st.workspaceId != e.workspaceId then Some(WorkspaceIdMismatch)
    else if st.revision != e.expectedRevision then Some(UnexpectedRevision)
    else if st.revision >= U64_MAX then Some(RevisionOverflow)
    else if PermissionError(st, e.actorDeviceId, RequiredPermission(e.event)) != None then
      PermissionError(st, e.actorDeviceId, RequiredPermission(e.event))
    else ContentRefusal(st, e)
  }

  function ContentRefusal(st: State, e: SignedAccessEvent): Option<AccessError> {
    match e.event
    case WorkspaceCreated(owner) =>
      if st.revision != 0 || st.memberships != map[] || st.devices != map[] then Some(NotEmpty)
      else if e.actorDeviceId != owner.deviceId then Some(ActorIsNotTheOwner)
      else None
    case DeviceJoined(_, device, _) =>
      if device.deviceId in st.memberships then Some(DeviceAlreadyMember) else None
    case DeviceRoleChanged(d, newRole) =>
      if !IsActive(st, d) then Some(DeviceNotActiveMember)
      else if newRole != Owner && IsActiveOwner(st, d) && |ActiveOwners(st)| == 1 then Some(CannotRemoveLastOwner)
      else None
    case DeviceRemoved(d) =>
      if !IsActive(st, d) then Some(DeviceNotActiveMember)
      else if IsActiveOwner(st, d) && |ActiveOwners(st)| == 1 then Some(CannotRemoveLastOwner)
      else None
    case RestrictedKeyGranted(key, generation, d) =>
      if !IsActive(st, d) then Some(DeviceNotActiveMember)
      else if HasActiveGrant(st.keyGrants, KeyVersion(key, generation), d) then Some(KeyAccessAlreadyGranted)
      else None
    case RestrictedKeyRevoked(key, generation, d) =>
      if HasActiveGrant(st.keyGrants, KeyVersion(key, generation), d) then None else Some(KeyAccessNotGranted)
  }

  // ---------------------------------------------------------------- effects

  function NewMembership(e: SignedAccessEvent, d: DeviceId, role: Role, revision: nat): Membership {
    Membership(d, role, ActiveMember, e.actorDeviceId, e.createdAt, revision, None, None, None)
  }

  function NewGrant(e: SignedAccessEvent, key: KeyId, generation: nat, d: DeviceId, revision: nat): KeyGrant {
    KeyGrant(key, generation, d, e.actorDeviceId, e.createdAt, revision, None, None, None)
  }

  function Ended(g: KeyGrant, actor: DeviceId, at: nat, revision: nat): KeyGrant {
    g.(revokedByDeviceId := Some(actor), revokedAt := Some(at), revokedAtRevision := Some(revision))
  }

  function PutGrant(grants: Grants, g: KeyGrant): Grants {
    var v := KeyVersion(g.keyId, g.generation);
    grants[v := (if v in grants then grants[v] else map[])[g.deviceId := g]]
  }

  /** One version's grants with the device's active grant ended. */
  function RevokeIn(grants: map<DeviceId, KeyGrant>, d: DeviceId, actor: DeviceId, at: nat, revision: nat)
    : map<DeviceId, KeyGrant>
  {
    if d in grants && grants[d].revokedAtRevision == None then grants[d := Ended(grants[d], actor, at, revision)]
    else grants
  }

  function RevokeAll(grants: Grants, d: DeviceId, actor: DeviceId, at: nat, revision: nat): Grants {
    map v | v in grants :: RevokeIn(grants[v], d, actor, at, revision)
  }

  function Commit(st: State, e: SignedAccessEvent): State {
    st.(revision := st.revision + 1, lastEventId := Some(e.eventId))
  }

  function AfterJoin(st: State, e: SignedAccessEvent, device: DeviceRecord, role: Role): State {
    Commit(st, e).(
      devices := st.devices[device.deviceId := device],
      memberships := st.memberships[device.deviceId := NewMembership(e, device.deviceId, role, st.revision + 1)])
  }

  function AfterRoleChange(st: State, e: SignedAccessEvent, d: DeviceId, role: Role): State
    requires d in st.memberships
  {
    Commit(st, e).(memberships := st.memberships[d := st.memberships[d].(role := role)])
  }

  function AfterRemoval(st: State, e: SignedAccessEvent, d: DeviceId): State
    requires d in st.memberships
  {
    var removed := st.memberships[d].(
      status := RemovedMember, removedByDeviceId := Some(e.actorDeviceId), removedAt := Some(e.createdAt),
      removedAtRevision := Some(st.revision + 1));
    Commit(st, e).(
      memberships := st.memberships[d := removed],
      devices := if d in st.devices then st.devices[d := st.devices[d].(status := Revoked)] else st.devices,
      keyGrants := RevokeAll(st.keyGrants, d, e.actorDeviceId, e.createdAt, st.revision + 1))
  }

  function AfterGrant(st: State, e: SignedAccessEvent, key: KeyId, generation: nat, d: DeviceId): State {
    Commit(st, e).(keyGrants := PutGrant(st.keyGrants, NewGrant(e, key, generation, d, st.revision + 1)))
  }

  function AfterRevocation(st: State, e: SignedAccessEvent, v: KeyVersion, d: DeviceId): State
    requires HasActiveGrant(st.keyGrants, v, d)
  {
    var ended := Ended(GrantOf(st.keyGrants, v, d).value, e.actorDeviceId, e.createdAt, st.revision + 1);
    Commit(st, e).(keyGrants := PutGrantAt(st.keyGrants, v, d, ended))
  }

  /** The state after an event that was not refused. */
  function Effect(st: State, e: SignedAccessEvent): State
    requires ContentRefusal(st, e) == None
  {
    match e.event
    case WorkspaceCreated(owner) => AfterJoin(st, e, owner, Owner)
    case DeviceJoined(_, device, role) => AfterJoin(st, e, device.(status := Active), role)
    case DeviceRoleChanged(d, newRole) => AfterRoleChange(st, e, d, newRole)
    case DeviceRemoved(d) => AfterRemoval(st, e, d)
    case RestrictedKeyGranted(key, generation, d) => AfterGrant(st, e, key, generation, d)
    case RestrictedKeyRevoked(key, generation, d) => AfterRevocation(st, e, KeyVersion(key, generation), d)
  }

  function PutGrantAt(grants: Grants, v: KeyVersion, d: DeviceId, g: KeyGrant): Grants
    requires v in grants
  {
    grants[v := grants[v][d := g]]
  }

  // ---------------------------------------------------------------- the state's own check

  /** The check the code makes on a loaded state, and again after every event. */
  predicate StateOk(rules: DeviceRules, st: State) {
    if st.revision == 0 then st.memberships == map[] && st.devices == map[] && st.lastEventId == None
    else
      && ActiveOwners(st) != {}
      && (forall d | d in st.devices ::
            st.devices[d].deviceId == d && DeviceOk(rules, st.devices[d]) && d in st.memberships)
      && (forall d | d in st.memberships :: MembershipOk(st, d))
      && (forall v | v in st.keyGrants :: v.generation != 0 && forall d | d in st.keyGrants[v] ::
            GrantIndexed(st, v, d, st.keyGrants[v][d]))
  }

  predicate MembershipOk(st: State, d: DeviceId)
    requires d in st.memberships
  {
    var m := st.memberships[d];
    && m.deviceId == d && 0 < m.joinedAtRevision <= st.revision && d in st.devices
    && match m.status
       case ActiveMember =>
         st.devices[d].status == Active && m.removedAtRevision == None
         && m.removedAt == None && m.removedByDeviceId == None
       case RemovedMember =>
         st.devices[d].status != Active && m.removedAtRevision.Some? && m.removedAtRevision.value <= st.revision
  }

  predicate GrantIndexed(st: State, v: KeyVersion, d: DeviceId, g: KeyGrant) {
    g.deviceId == d && g.keyId == v.keyId && g.generation == v.generation && 0 < g.grantedAtRevision <= st.revision
  }
}
