/** The mutable access state, and what holds over every run of it. */
module AccessMachine {
  import opened Options
  import opened AccessEvents
  import opened Access
  import opened AccessInvariant
  import opened AccessDecisions

  class AccessState {
    const workspaceId: string
    var revision: nat
    var lastEventId: Option<string>
    var devices: map<DeviceId, DeviceRecord>
    var memberships: map<DeviceId, Membership>
    var keyGrants: Grants

    constructor Empty(workspaceId: string)
      ensures View() == Access.Empty(workspaceId)
    {
      this.workspaceId := workspaceId;
      revision, lastEventId, devices, memberships, keyGrants := 0, None, map[], map[], map[];
    }

    function View(): State
      reads this
    {
      State(workspaceId, revision, lastEventId, devices, memberships, keyGrants)
    }

    method InsertMember(device: DeviceRecord, m: Membership)
      modifies this`devices, this`memberships
      ensures devices == old(devices)[device.deviceId := device]
      ensures memberships == old(memberships)[m.deviceId := m]
    {
      devices := devices[device.deviceId := device];
      memberships := memberships[m.deviceId := m];
    }

    /** Ends every active grant of the device, one key version at a time. */
    method RevokeAllForDevice(d: DeviceId, actor: DeviceId, at: nat, atRevision: nat)
      returns (affected: set<KeyVersion>)
      modifies this`keyGrants
      ensures keyGrants == RevokeAll(old(keyGrants), d, actor, at, atRevision)
      ensures forall v :: v in affected <==> HasActiveGrant(old(keyGrants), v, d)
    {
      affected := {};
      ghost var before := keyGrants;
      var todo := keyGrants.Keys;
      while todo != {}
        invariant todo <= before.Keys == keyGrants.Keys
        invariant forall v | v in before ::
          keyGrants[v] == if v in todo then before[v] else RevokeIn(before[v], d, actor, at, atRevision)
        invariant forall v :: v in affected <==> v !in todo && HasActiveGrant(before, v, d)
      {
        var v :| v in todo;
        var grants := keyGrants[v];
        if d in grants && grants[d].revokedAtRevision == None {
          keyGrants := keyGrants[v := grants[d := Ended(grants[d], actor, at, atRevision)]];
          affected := affected + {v};
        }
        todo := todo - {v};
      }
    }

    /** Applies an event, then validates the whole state. Only a state no run reaches can fail that last
        check; on all others the call is atomic. */
    method ApplyVerifiedEvent(rules: DeviceRules, e: SignedAccessEvent) returns (r: Option<AccessError>)
      modifies this
      ensures Refusal(rules, old(View()), e).Some? ==> r == Refusal(rules, old(View()), e) && View() == old(View())
      ensures Refusal(rules, old(View()), e) == None ==>
        View() == Effect(old(View()), e) && (r == None <==> StateOk(rules, View()))
      ensures Inv(rules, old(View())) ==> r == Refusal(rules, old(View()), e)
      ensures Inv(rules, old(View())) ==> Answers(rules, old(View()), e, r)
    {
      ghost var st := View();
      if Inv(rules, st) { RefusalAnswers(rules, st, e); }
      r := Guard(rules, e);
      if r != None {
        return;
      }
      var next := revision + 1;
      r := Mutate(e, next);
      if r != None {
        return;
      }
      revision, lastEventId := next, Some(e.eventId);
      var valid := Validate(rules);
      r := if valid then None else Some(InvalidState);
      if Inv(rules, st) { EffectIsOk(rules, st, e); }
    }

    /** The checks that do not depend on what the event is about. */
    method Guard(rules: DeviceRules, e: SignedAccessEvent) returns (r: Option<AccessError>)
      ensures Refusal(rules, View(), e) == if r == None then ContentRefusal(View(), e) else r
      ensures r == None ==>
        && WellFormed(rules, e) && e.workspaceId == workspaceId && e.expectedRevision == revision < U64_MAX
        && (e.event.WorkspaceCreated? || IsActiveOwner(View(), e.actorDeviceId))
    {
      r := SignedEventError(rules, e);
      if r != None {
        return;
      }
      if workspaceId != e.workspaceId {
        return Some(WorkspaceIdMismatch);
      }
      if revision != e.expectedRevision {
        return Some(UnexpectedRevision);
      }
      if revision >= U64_MAX {
        return Some(RevisionOverflow);
      }
      r := PermissionError(View(), e.actorDeviceId, RequiredPermission(e.event));
    }

    /** `validate`: the loops over records, memberships and grants. */
    method Validate(rules: DeviceRules) returns (ok: bool)
      ensures ok <==> StateOk(rules, View())
      ensures ok <==> Consistent(rules, View())
    {
      var st := View();
      OkIsConsistent(rules, st);
      if revision == 0 {
        return memberships == map[] && devices == map[] && lastEventId == None;
      }
      if |ActiveOwners(st)| == 0 {
        return false;
      }
      assert ActiveOwners(st) != {};
      var ids := devices.Keys;
      while ids != {}
        invariant ids <= devices.Keys
        invariant forall d | d in devices && d !in ids ::
          devices[d].deviceId == d && DeviceOk(rules, devices[d]) && d in memberships
      {
        var d :| d in ids;
        if devices[d].deviceId != d || !DeviceOk(rules, devices[d]) || d !in memberships {
          return false;
        }
        ids := ids - {d};
      }
      ids := memberships.Keys;
      while ids != {}
        invariant ids <= memberships.Keys
        invariant forall d | d in memberships && d !in ids :: MembershipOk(st, d)
      {
        var d :| d in ids;
        if !MembershipOk(st, d) {
          return false;
        }
        ids := ids - {d};
      }
      ok := ValidateGrants();
    }

    method ValidateGrants() returns (ok: bool)
      ensures ok <==> forall v | v in keyGrants ::
        v.generation != 0 && forall d | d in keyGrants[v] :: GrantIndexed(View(), v, d, keyGrants[v][d])
    {
      var versions := keyGrants.Keys;
      while versions != {}
        invariant versions <= keyGrants.Keys
        invariant forall v | v in keyGrants && v !in versions ::
          v.generation != 0 && forall d | d in keyGrants[v] :: GrantIndexed(View(), v, d, keyGrants[v][d])
      {
        var v :| v in versions;
        if v.generation == 0 {
          return false;
        }
        var ids := keyGrants[v].Keys;
        while ids != {}
          invariant ids <= keyGrants[v].Keys
          invariant forall d | d in keyGrants[v] && d !in ids :: GrantIndexed(View(), v, d, keyGrants[v][d])
        {
          var d :| d in ids;
          if !GrantIndexed(View(), v, d, keyGrants[v][d]) {
            return false;
          }
          ids := ids - {d};
        }
        versions := versions - {v};
      }
      ok := true;
    }

    /** The part that depends on the kind of event, before the revision is committed. */
    method Mutate(e: SignedAccessEvent, next: nat) returns (r: Option<AccessError>)
      requires next == revision + 1
      modifies this`devices, this`memberships, this`keyGrants
      ensures r == ContentRefusal(old(View()), e)
      ensures r == None ==> Commit(View(), e) == Effect(old(View()), e)
      ensures r == None ==> Happened(old(View()), e, Commit(View(), e))
      ensures r != None ==> View() == old(View())
    {
      if ContentRefusal(View(), e) == None { EffectHappens(View(), e); }
      r := None;
      match e.event
      case WorkspaceCreated(owner) =>
        if revision != 0 || memberships != map[] || devices != map[] {
          return Some(NotEmpty);
        }
        if e.actorDeviceId != owner.deviceId {
          return Some(ActorIsNotTheOwner);
        }
        InsertMember(owner, NewMembership(e, owner.deviceId, Owner, next));
      case DeviceJoined(_, device, role) =>
        if device.deviceId in memberships {
          return Some(DeviceAlreadyMember);
        }
        InsertMember(device.(status := Active), NewMembership(e, device.deviceId, role, next));
      case DeviceRoleChanged(d, newRole) =>
        if !IsActive(View(), d) {
          return Some(DeviceNotActiveMember);
        }
        if newRole != Owner && memberships[d].role == Owner && |ActiveOwners(View())| == 1 {
          return Some(CannotRemoveLastOwner);
        }
        memberships := memberships[d := memberships[d].(role := newRole)];
      case DeviceRemoved(d) =>
        if !IsActive(View(), d) {
          return Some(DeviceNotActiveMember);
        }
        if memberships[d].role == Owner && |ActiveOwners(View())| == 1 {
          return Some(CannotRemoveLastOwner);
        }
        memberships := memberships[d := memberships[d].(
          status := RemovedMember, removedByDeviceId := Some(e.actorDeviceId), removedAt := Some(e.createdAt),
          removedAtRevision := Some(next))];
        if d in devices {
          devices := devices[d := devices[d].(status := Revoked)];
        }
        var affected := RevokeAllForDevice(d, e.actorDeviceId, e.createdAt, next);
      case RestrictedKeyGranted(key, generation, d) =>
        if !IsActive(View(), d) {
          return Some(DeviceNotActiveMember);
        }
        if HasActiveGrant(keyGrants, KeyVersion(key, generation), d) {
          return Some(KeyAccessAlreadyGranted);
        }
        keyGrants := PutGrant(keyGrants, NewGrant(e, key, generation, d, next));
      case RestrictedKeyRevoked(key, generation, d) =>
        var v := KeyVersion(key, generation);
        if !HasActiveGrant(keyGrants, v, d) {
          return Some(KeyAccessNotGranted);
        }
        keyGrants := PutGrantAt(keyGrants, v, d, Ended(keyGrants[v][d], e.actorDeviceId, e.createdAt, next));
    }
  }
}
