/** Devices, roles and the signed events that change who may use a workspace. */
module AccessEvents {
  import opened Options
  import opened Data

  type DeviceId = string
  type KeyId = string

  datatype DeviceStatus = Pending | Active | Revoked

  datatype DeviceRecord = DeviceRecord(
    deviceId: DeviceId,
    deviceName: string,
    signingPublicKey: Bytes,
    exchangePublicKey: Bytes,
    fingerprint: string,
    status: DeviceStatus)

  /** The foreign checks on a device record: a non-blank name, the fingerprint of two public keys, and
      a signing key that is a curve point. */
  datatype DeviceRules = DeviceRules(
    named: string -> bool,
    fingerprint: (Bytes, Bytes) -> string,
    usable: Bytes -> bool)

  /** Independent of the status, so activating or revoking a device keeps it valid. */
  predicate DeviceOk(rules: DeviceRules, d: DeviceRecord) {
    && rules.named(d.deviceName)
    && rules.fingerprint(d.signingPublicKey, d.exchangePublicKey) == d.fingerprint
    && rules.usable(d.signingPublicKey)
  }

  datatype Role = Owner | Member

  datatype Permission =
    | ReadObjects | WriteObjects | UpdateHead | ReadDevices | ReadAccessHistory
    | ManageDevices | ManageRoles | ManageKeys

  predicate Allows(role: Role, permission: Permission) {
    role.Owner? || permission in {ReadObjects, WriteObjects, UpdateHead, ReadDevices, ReadAccessHistory}
  }

  datatype AccessEvent =
    | WorkspaceCreated(owner: DeviceRecord)
    | DeviceJoined(joinRequestId: string, device: DeviceRecord, role: Role)
    | DeviceRoleChanged(deviceId: DeviceId, newRole: Role)
    | DeviceRemoved(deviceId: DeviceId)
    | RestrictedKeyGranted(keyId: KeyId, keyGeneration: nat, deviceId: DeviceId)
    | RestrictedKeyRevoked(keyId: KeyId, keyGeneration: nat, deviceId: DeviceId)

  datatype SignedAccessEvent = SignedAccessEvent(
    eventId: string,
    workspaceId: string,
    expectedRevision: nat,
    actorDeviceId: DeviceId,
    createdAt: nat,
    event: AccessEvent,
    signature: Bytes)

  datatype AccessError =
    | SignatureMissing
    | InvalidDevice
    | WrongDeviceStatus
    | InvalidKeyGeneration
    | WorkspaceIdMismatch
    | UnexpectedRevision
    | RevisionOverflow
    | NotEmpty
    | ActorIsNotTheOwner
    | DeviceNotActiveMember
    | PermissionDenied
    | DeviceAlreadyMember
    | CannotRemoveLastOwner
    | KeyAccessAlreadyGranted
    | KeyAccessNotGranted
    | InvalidState

  function RequiredPermission(e: AccessEvent): Option<Permission> {
    match e
    case WorkspaceCreated(_) => None
    case DeviceJoined(_, _, _) => Some(ManageDevices)
    case DeviceRemoved(_) => Some(ManageDevices)
    case DeviceRoleChanged(_, _) => Some(ManageRoles)
    case RestrictedKeyGranted(_, _, _) => Some(ManageKeys)
    case RestrictedKeyRevoked(_, _, _) => Some(ManageKeys)
  }

  /** The checks an event passes on its own. */
  function EventError(rules: DeviceRules, e: AccessEvent): Option<AccessError> {
    match e
    case WorkspaceCreated(owner) =>
      if !DeviceOk(rules, owner) then Some(InvalidDevice)
      else if owner.status != Active then Some(WrongDeviceStatus)
      else None
    case DeviceJoined(_, device, _) =>
      if !DeviceOk(rules, device) then Some(InvalidDevice)
      else if device.status != Pending then Some(WrongDeviceStatus)
      else None
    case RestrictedKeyGranted(_, generation, _) => if generation == 0 then Some(InvalidKeyGeneration) else None
    case RestrictedKeyRevoked(_, generation, _) => if generation == 0 then Some(InvalidKeyGeneration) else None
    case _ => None
  }

  function SignedEventError(rules: DeviceRules, e: SignedAccessEvent): Option<AccessError> {
    if e.signature == [] then Some(SignatureMissing) else EventError(rules, e.event)
  }
}
